/**
 The lock-free open-addressing hash table that maps a <table, key> pair to a record pointer
 (util/OpenAddressingHash.cpp).

 The table is a transition system.  A step of one thread performs exactly one atomic load, store or
 compare-and-swap on one bucket, followed by the thread-local decisions up to its next atomic access.  Any
 number of threads may be inside insert, get, update or erase at once, and a run interleaves them freely.
 */
module OpenAddressing {

  import opened Common

  /** The pointer word of a bucket; see `Word` for its bit-level form. */
  datatype Ptr = Free | Deleted | Invalid | Inserting(data: nat) | Live(data: nat)

  /** `epoch` is a history variable: it counts how often the bucket started or stopped holding a live pointer. */
  datatype Bucket = Bucket(table: nat, key: nat, ptr: Ptr, epoch: nat)

  datatype Op = Get | Insert(data: nat) | Update(expected: nat, desired: nat) | Erase(expected: nat)

  /** What an operation returns: its boolean, and the pointer it hands to the caller (result or actualData). */
  datatype Result = Result(ok: bool, ptr: Option<nat>)

  /** Program counters, named after the atomic access the thread performs next.  Positions are probe offsets. */
  datatype Pc =
    // insert: search for a bucket, claim it and publish the key
    | Probe(off: nat)
    | Claim(off: nat, seen: Ptr)
    | PutKey(own: nat)
    | PutTable(own: nat)
    // hasInsertConflict
    | ScanPtr(own: nat, off: nat)
    | ScanTable(own: nat, off: nat, seen: Ptr)
    | ScanKey(own: nat, off: nat, seen: Ptr, t: nat)
    | ScanAgain(own: nat, off: nat, seen: Ptr, t: nat, k: nat)
    | Kill(own: nat, off: nat, seen: Ptr)
    // insert: outcome
    | Publish(own: nat)
    | Abort(own: nat, actual: Option<nat>)
    // deleteEntry
    | WipeTable(own: nat, res: Result)
    | WipeKey(own: nat, res: Result)
    | WipePtr(own: nat, res: Result)
    // execOnElement
    | FindPtr(off: nat)
    | FindTable(off: nat, seen: Ptr)
    | FindKey(off: nat, seen: Ptr, t: nat)
    | FindAgain(off: nat, seen: Ptr, t: nat, k: nat)
    | Swap(off: nat)
    // setActualData
    | ActTable(off: nat, seen: Ptr)
    | ActKey(off: nat, seen: Ptr, t: nat)
    | ActAgain(off: nat, seen: Ptr, t: nat, k: nat)
    | Return(res: Result)

  /** `anchor` is a history variable: a bucket that held the key, and its epoch, when the operation was called. */
  datatype Thread = Thread(table: nat, key: nat, op: Op, pc: Pc, anchor: Option<(nat, nat)>)

  /** The capacity and the probe sequence: `probe(table, key, off)` is the bucket at position hash + off. */
  datatype Config = Config(cap: nat, probe: (nat, nat, nat) -> nat)

  /** `home` is a history variable: the bucket and epoch in which a pointer was last live. */
  datatype State = State(buckets: seq<Bucket>, threads: map<nat, Thread>, home: map<nat, (nat, nat)>)

  datatype Label =
    | Call(tid: nat, table: nat, key: nat, op: Op, anchor: Option<(nat, nat)>)
    | Tick(tid: nat)
    | Leave(tid: nat)

  // ------------------------------------------------------------------ the probe sequence

  ghost predicate ProbeOK(c: Config) {
    && (forall t, k, o :: 0 <= o < c.cap ==> c.probe(t, k, o) < c.cap)
    && (forall t, k, o, p :: 0 <= o < p < c.cap ==> c.probe(t, k, o) != c.probe(t, k, p))
  }

  lemma MultipleGap(k: int, m: nat)
    ensures k <= 0 ==> k * m <= 0
    ensures k >= 1 ==> k * m >= m
  {
    if k >= 1 {
      assert k * m == m + (k - 1) * m;
    }
  }

  lemma ModDistinct(a: nat, b: nat, m: nat)
    requires a < b < a + m
    ensures a % m != b % m
  {
    var p, q, r := a / m, b / m, a % m;
    if b % m == r {
      assert a == m * p + r && b == m * q + r;
      assert (q - p) * m == m * q - m * p;
      MultipleGap(q - p, m);
    }
  }

  /** Positions hash + off, taken modulo the capacity, visit every bucket at most once. */
  lemma LinearProbing(cap: nat, hash: (nat, nat) -> nat)
    requires cap > 0
    ensures ProbeOK(Config(cap, (t, k, o) => (hash(t, k) + o) % cap))
  {
    var c := Config(cap, (t, k, o) => (hash(t, k) + o) % cap);
    forall t, k, o, p | 0 <= o < p < c.cap
      ensures c.probe(t, k, o) != c.probe(t, k, p)
    {
      ModDistinct(hash(t, k) + o, hash(t, k) + p, cap);
    }
  }

  // ------------------------------------------------------------------ the pointer word

  /** The word stored for a pointer state: the three lowest bits are the markers DELETED, INVALID and INSERTING. */
  function Word(p: Ptr): nat {
    match p
    case Free => 0
    case Deleted => 1
    case Invalid => 2
    case Inserting(d) => d + 4
    case Live(d) => d
  }

  /** The mask tests in the code tell the five pointer states apart, for every non-null 8-byte aligned pointer:
      masking with a low-bit mask is a remainder, masking the markers away subtracts it. */
  lemma WordTests(p: Ptr, q: nat)
    requires q > 0 && (p.Inserting? || p.Live? ==> p.data == 8 * q)
    ensures Word(p) == 0 || Word(p) == 1 <==> p.Free? || p.Deleted?
    ensures (Word(p) == 0 <==> p.Free?) && (Word(p) == 1 <==> p.Deleted?) && (Word(p) == 2 <==> p.Invalid?)
    ensures Word(p) % 4 != 0 <==> p.Deleted? || p.Invalid?
    ensures Word(p) % 8 != 0 <==> p.Deleted? || p.Invalid? || p.Inserting?
    ensures p.Inserting? || p.Live? ==>
              (Word(p) / 4 % 2 == 0 <==> p.Live?) && Word(p) - Word(p) % 8 == p.data
  {
    match p
    case Inserting(_) => MarkedWord(q);
    case Live(_) => PlainWord(q);
    case _ =>
  }

  lemma MarkedWord(q: nat)
    ensures (8 * q + 4) % 4 == 0 && (8 * q + 4) % 8 == 4 && (8 * q + 4) / 4 % 2 == 1
  {
    assert (8 * q + 4) / 4 == 2 * q + 1;
  }

  lemma PlainWord(q: nat)
    ensures (8 * q) % 4 == 0 && (8 * q) % 8 == 0 && 8 * q / 4 % 2 == 0
  {
    assert 8 * q / 4 == 2 * q;
  }

  // ------------------------------------------------------------------ one step of one thread

  predicate PcOK(c: Config, pc: Pc) {
    match pc
    case Probe(off) => off < c.cap
    case Claim(off, seen) => off < c.cap && (seen.Free? || seen.Deleted?)
    case PutKey(own) => own < c.cap
    case PutTable(own) => own < c.cap
    case ScanPtr(own, off) => own < c.cap && off < c.cap && own != off
    case ScanTable(own, off, seen) => own < c.cap && off < c.cap && own != off && (seen.Inserting? || seen.Live?)
    case ScanKey(own, off, seen, _) => own < c.cap && off < c.cap && own != off && (seen.Inserting? || seen.Live?)
    case ScanAgain(own, off, seen, _, _) =>
      own < c.cap && off < c.cap && own != off && (seen.Inserting? || seen.Live?)
    case Kill(own, off, seen) => own < c.cap && off < c.cap && own != off && seen.Inserting?
    case Publish(own) => own < c.cap
    case Abort(own, _) => own < c.cap
    case WipeTable(own, _) => own < c.cap
    case WipeKey(own, _) => own < c.cap
    case WipePtr(own, _) => own < c.cap
    case FindPtr(off) => off < c.cap
    case FindTable(off, seen) => off < c.cap && seen.Live?
    case FindKey(off, seen, _) => off < c.cap && seen.Live?
    case FindAgain(off, seen, _, _) => off < c.cap && seen.Live?
    case Swap(off) => off < c.cap
    case ActTable(off, seen) => off < c.cap && (seen.Live? || seen.Free?)
    case ActKey(off, seen, _) => off < c.cap && (seen.Live? || seen.Free?)
    case ActAgain(off, seen, _, _) => off < c.cap && (seen.Live? || seen.Free?)
    case Return(_) => true
  }

  predicate InsertPc(pc: Pc) {
    pc.Probe? || pc.Claim? || pc.PutKey? || pc.PutTable? || pc.ScanPtr? || pc.ScanTable? || pc.ScanKey?
    || pc.ScanAgain? || pc.Kill? || pc.Publish? || pc.Abort?
  }

  ghost predicate ThreadOK(c: Config, th: Thread) {
    && th.table != 0
    && PcOK(c, th.pc)
    && (InsertPc(th.pc) ==> th.op.Insert?)
    && (th.pc.Swap? ==> th.op.Update? || th.op.Erase?)
    && (th.op.Get? ==> th.pc.FindPtr? || th.pc.FindTable? || th.pc.FindKey? || th.pc.FindAgain? || th.pc.Return?)
  }

  /** The result execOnElement reports when it reaches the end of the overflow chain. */
  function NotFound(op: Op): Result {
    Result(op.Erase?, None)
  }

  /** setActualData after it (re)loaded the pointer word `p`. */
  function Actual(off: nat, p: Ptr): Pc {
    if p.Deleted? || p.Invalid? || p.Inserting? then Return(Result(false, None)) else ActTable(off, p)
  }

  /** insert, except for the conflict scan. */
  ghost function AccessInsert(c: Config, b: Bucket, th: Thread): (Bucket, Pc)
    requires ThreadOK(c, th) && th.op.Insert?
  {
    match th.pc
    case Probe(off) =>
      (b, if b.ptr.Free? || b.ptr.Deleted? then Claim(off, b.ptr) else Probe(off + 1))
    case Claim(off, seen) =>
      if b.ptr == seen then (b.(ptr := Inserting(th.op.data)), PutKey(off)) else (b, Probe(off + 1))
    case PutKey(own) => (b.(key := th.key), PutTable(own))
    case PutTable(own) => (b.(table := th.table), ScanPtr(own, 0))
    case Publish(own) =>
      if b.ptr == Inserting(th.op.data)
      then (b.(ptr := Live(th.op.data), epoch := b.epoch + 1), Return(Result(true, None)))
      else (b, WipeTable(own, Result(false, None)))
    case Abort(own, actual) => (b.(ptr := Invalid), WipeTable(own, Result(false, actual)))
    case _ => (b, th.pc)
  }

  /** hasInsertConflict. */
  ghost function AccessScan(c: Config, b: Bucket, th: Thread): (Bucket, Pc)
    requires ThreadOK(c, th)
  {
    match th.pc
    case ScanPtr(own, off) =>
      (b, if b.ptr.Free? then Publish(own)
          else if b.ptr.Deleted? || b.ptr.Invalid? then ScanPtr(own, off + 1)
          else ScanTable(own, off, b.ptr))
    case ScanTable(own, off, seen) => (b, ScanKey(own, off, seen, b.table))
    case ScanKey(own, off, seen, t) =>
      (b, if t == 0 then ScanPtr(own, off + 1) else ScanAgain(own, off, seen, t, b.key))
    case ScanAgain(own, off, seen, t, k) =>
      (b, if b.ptr != seen then ScanPtr(own, off)
          else if t != th.table || k != th.key then ScanPtr(own, off + 1)
          else if seen.Live? then Abort(own, Some(seen.data))
          else if off < own then Abort(own, None)
          else Kill(own, off, seen))
    case Kill(own, off, seen) =>
      if b.ptr == seen then (b.(ptr := Invalid), ScanPtr(own, off + 1))
      else (b, if b.ptr.Deleted? || b.ptr.Invalid? then ScanPtr(own, off + 1)
               else if b.ptr == Live(seen.data) then Abort(own, Some(seen.data))
               else ScanPtr(own, off))
    case _ => (b, th.pc)
  }

  /** deleteEntry. */
  function AccessWipe(b: Bucket, pc: Pc): (Bucket, Pc) {
    match pc
    case WipeTable(own, res) => (b.(table := 0), WipeKey(own, res))
    case WipeKey(own, res) => (b.(key := 0), WipePtr(own, res))
    case WipePtr(own, res) => (b.(ptr := Deleted), Return(res))
    case _ => (b, pc)
  }

  /** execOnElement and the function it applies to the element it finds. */
  ghost function AccessFind(c: Config, b: Bucket, th: Thread): (Bucket, Pc)
    requires ThreadOK(c, th)
  {
    match th.pc
    case FindPtr(off) =>
      (b, if b.ptr.Free? then Return(NotFound(th.op))
          else if !b.ptr.Live? then FindPtr(off + 1)
          else FindTable(off, b.ptr))
    case FindTable(off, seen) => (b, FindKey(off, seen, b.table))
    case FindKey(off, seen, t) => (b, FindAgain(off, seen, t, b.key))
    case FindAgain(off, seen, t, k) =>
      (b, if b.ptr != seen then FindPtr(off)
          else if t != th.table || k != th.key then FindPtr(off + 1)
          else if th.op.Update? || th.op.Erase? then Swap(off)
          else Return(Result(true, Some(seen.data))))
    case Swap(off) =>
      if b.ptr == Live(th.op.expected) then
        if th.op.Update? then (b.(ptr := Live(th.op.desired)), Return(Result(true, None)))
        else (b.(ptr := Invalid, epoch := b.epoch + 1), WipeTable(off, Result(true, None)))
      else (b, Actual(off, b.ptr))
    case _ => (b, th.pc)
  }

  /** setActualData. */
  ghost function AccessActual(c: Config, b: Bucket, th: Thread): Pc
    requires ThreadOK(c, th)
  {
    match th.pc
    case ActTable(off, seen) => ActKey(off, seen, b.table)
    case ActKey(off, seen, t) => ActAgain(off, seen, t, b.key)
    case ActAgain(off, seen, t, k) =>
      if b.ptr != seen then Actual(off, b.ptr)
      else if t != th.table || k != th.key || !seen.Live? then Return(Result(false, None))
      else Return(Result(false, Some(seen.data)))
    case _ => th.pc
  }

  predicate ScanPc(pc: Pc) {
    pc.ScanPtr? || pc.ScanTable? || pc.ScanKey? || pc.ScanAgain? || pc.Kill?
  }

  predicate WipePc(pc: Pc) {
    pc.WipeTable? || pc.WipeKey? || pc.WipePtr?
  }

  predicate FindPc(pc: Pc) {
    pc.FindPtr? || pc.FindTable? || pc.FindKey? || pc.FindAgain? || pc.Swap?
  }

  /** The next atomic access of a thread: the new content of the accessed bucket and the next program counter. */
  ghost function Access(c: Config, b: Bucket, th: Thread): (Bucket, Pc)
    requires ThreadOK(c, th)
  {
    if ScanPc(th.pc) then AccessScan(c, b, th)
    else if WipePc(th.pc) then AccessWipe(b, th.pc)
    else if FindPc(th.pc) then AccessFind(c, b, th)
    else if InsertPc(th.pc) then AccessInsert(c, b, th)
    else (b, AccessActual(c, b, th))
  }

  /** Loop exits and skips that access no bucket are taken together with the access before them. */
  function Skip(c: Config, op: Op, pc: Pc): Pc {
    match pc
    case Probe(off) => if off >= c.cap then Return(Result(false, None)) else pc
    case ScanPtr(own, off) =>
      var off' := if off == own then off + 1 else off;
      if off' >= c.cap then Publish(own) else ScanPtr(own, off')
    case FindPtr(off) => if off >= c.cap then Return(NotFound(op)) else pc
    case _ => pc
  }

  /** The probe offset of the bucket the thread accesses next. */
  function Offset(pc: Pc): Option<nat> {
    match pc
    case Probe(off) => Some(off)
    case Claim(off, _) => Some(off)
    case PutKey(own) => Some(own)
    case PutTable(own) => Some(own)
    case ScanPtr(_, off) => Some(off)
    case ScanTable(_, off, _) => Some(off)
    case ScanKey(_, off, _, _) => Some(off)
    case ScanAgain(_, off, _, _, _) => Some(off)
    case Kill(_, off, _) => Some(off)
    case Publish(own) => Some(own)
    case Abort(own, _) => Some(own)
    case WipeTable(own, _) => Some(own)
    case WipeKey(own, _) => Some(own)
    case WipePtr(own, _) => Some(own)
    case FindPtr(off) => Some(off)
    case FindTable(off, _) => Some(off)
    case FindKey(off, _, _) => Some(off)
    case FindAgain(off, _, _, _) => Some(off)
    case Swap(off) => Some(off)
    case ActTable(off, _) => Some(off)
    case ActKey(off, _, _) => Some(off)
    case ActAgain(off, _, _, _) => Some(off)
    case Return(_) => None
  }

  ghost predicate WF(c: Config, s: State) {
    && ProbeOK(c)
    && |s.buckets| == c.cap
    && (forall i | i in s.threads :: ThreadOK(c, s.threads[i]))
  }

  /** The bucket a thread accesses next. */
  ghost function Target(c: Config, th: Thread): (b: nat)
    requires ProbeOK(c) && ThreadOK(c, th) && !th.pc.Return?
    ensures b < c.cap
  {
    c.probe(th.table, th.key, Offset(th.pc).value)
  }

  ghost function Entry(c: Config, op: Op): Pc {
    Skip(c, op, if op.Insert? then Probe(0) else FindPtr(0))
  }

  /** A bucket the caller may remember as holding its key at the time of the call. */
  ghost predicate AnchorOK(s: State, table: nat, key: nat, anchor: Option<(nat, nat)>) {
    anchor.Some? ==>
      && anchor.value.0 < |s.buckets|
      && var b := s.buckets[anchor.value.0];
         b.ptr.Live? && b.table == table && b.key == key && b.epoch == anchor.value.1
  }

  ghost predicate Enabled(c: Config, s: State, l: Label) {
    match l
    case Call(tid, table, key, op, anchor) =>
      tid !in s.threads && table != 0 && AnchorOK(s, table, key, anchor)
    case Tick(tid) => tid in s.threads && !s.threads[tid].pc.Return?
    case Leave(tid) => tid in s.threads && s.threads[tid].pc.Return?
  }

  ghost function Next(c: Config, s: State, l: Label): State
    requires WF(c, s) && Enabled(c, s, l)
  {
    match l
    case Call(tid, table, key, op, anchor) =>
      s.(threads := s.threads[tid := Thread(table, key, op, Entry(c, op), anchor)])
    case Leave(tid) =>
      s.(threads := s.threads - {tid})
    case Tick(tid) =>
      var th := s.threads[tid];
      var x := Target(c, th);
      var (b, pc) := Access(c, s.buckets[x], th);
      State(
        s.buckets[x := b],
        s.threads[tid := th.(pc := Skip(c, th.op, pc))],
        if b.ptr.Live? && b.ptr != s.buckets[x].ptr then s.home[b.ptr.data := (x, b.epoch)] else s.home)
  }

  ghost predicate Init(c: Config, s: State) {
    && ProbeOK(c)
    && s.buckets == seq(c.cap, _ => Bucket(0, 0, Free, 0))
    && s.threads == map[]
    && s.home == map[]
  }

  // ------------------------------------------------------------------ the invariant behind uniqueness

  /** The probe offset of the bucket a thread has claimed or is wiping. */
  function Owned(pc: Pc): Option<nat> {
    match pc
    case PutKey(own) => Some(own)
    case PutTable(own) => Some(own)
    case ScanPtr(own, _) => Some(own)
    case ScanTable(own, _, _) => Some(own)
    case ScanKey(own, _, _, _) => Some(own)
    case ScanAgain(own, _, _, _, _) => Some(own)
    case Kill(own, _, _) => Some(own)
    case Publish(own) => Some(own)
    case Abort(own, _) => Some(own)
    case WipeTable(own, _) => Some(own)
    case WipeKey(own, _) => Some(own)
    case WipePtr(own, _) => Some(own)
    case _ => None
  }

  /** The thread has published its key and is looking for rivals, or has finished looking. */
  predicate Racing(pc: Pc) {
    pc.ScanPtr? || pc.ScanTable? || pc.ScanKey? || pc.ScanAgain? || pc.Kill? || pc.Publish?
  }

  /** No bucket in front of offset `off` is free, so every search for the key gets as far as `off`. */
  ghost predicate FullBelow(c: Config, bs: seq<Bucket>, table: nat, key: nat, off: nat)
    requires ProbeOK(c) && |bs| == c.cap && off <= c.cap
  {
    forall o | 0 <= o < off :: !bs[c.probe(table, key, o)].ptr.Free?
  }

  /** What a thread's program counter says about the bucket it owns. */
  ghost predicate OwnsOK(b: Bucket, th: Thread)
    requires InsertPc(th.pc) ==> th.op.Insert?
    requires Owned(th.pc).Some?
  {
    match th.pc
    case PutKey(_) => (b.ptr == Inserting(th.op.data) || b.ptr.Invalid?) && b.table == 0
    case PutTable(_) => (b.ptr == Inserting(th.op.data) || b.ptr.Invalid?) && b.table == 0 && b.key == th.key
    case WipeTable(_, _) => b.ptr.Invalid?
    case WipeKey(_, _) => b.ptr.Invalid? && b.table == 0
    case WipePtr(_, _) => b.ptr.Invalid? && b.table == 0 && b.key == 0
    case _ => (b.ptr == Inserting(th.op.data) || b.ptr.Invalid?) && b.table == th.table && b.key == th.key
  }

  ghost predicate ThreadInv(c: Config, bs: seq<Bucket>, th: Thread)
    requires ProbeOK(c) && |bs| == c.cap && ThreadOK(c, th)
  {
    && (Owned(th.pc).Some? ==> OwnsOK(bs[c.probe(th.table, th.key, Owned(th.pc).value)], th))
    && ChainInv(c, bs, th)
  }

  /** An insert has found every bucket in front of its own taken. */
  ghost predicate ChainInv(c: Config, bs: seq<Bucket>, th: Thread)
    requires ProbeOK(c) && |bs| == c.cap && ThreadOK(c, th)
  {
    && (InsertPc(th.pc) ==>
          FullBelow(c, bs, th.table, th.key, (if Owned(th.pc).Some? then Owned(th.pc) else Offset(th.pc)).value))
    && (th.pc.Claim? && th.pc.seen.Deleted? ==> !bs[c.probe(th.table, th.key, th.pc.off)].ptr.Free?)
  }

  ghost predicate BucketInv(c: Config, bs: seq<Bucket>, x: nat)
    requires ProbeOK(c) && |bs| == c.cap && x < c.cap
  {
    Blank(bs[x]) && (bs[x].ptr.Live? ==> Reachable(c, bs, x, bs[x].table, bs[x].key))
  }

  ghost predicate Blank(b: Bucket) {
    && (b.ptr.Free? || b.ptr.Deleted? ==> b.table == 0 && b.key == 0)
    && (b.ptr.Live? ==> b.table != 0)
  }

  /** Bucket `x` lies on the probe sequence of the key, in front of its first free bucket. */
  ghost predicate Reachable(c: Config, bs: seq<Bucket>, x: nat, table: nat, key: nat)
    requires ProbeOK(c) && |bs| == c.cap
  {
    exists o | 0 <= o < c.cap :: c.probe(table, key, o) == x && FullBelow(c, bs, table, key, o)
  }

  /** The scan of a racing thread has got past offset `o`, or has read something there that makes it move on. */
  ghost predicate Past(th: Thread, o: nat) {
    match th.pc
    case ScanPtr(own, off) => o != own && o < off
    case ScanTable(own, off, _) => o != own && o < off
    case ScanKey(own, off, _, t) => o != own && (o < off || (o == off && t != th.table))
    case ScanAgain(own, off, _, t, k) => o != own && (o < off || (o == off && (t != th.table || k != th.key)))
    case Kill(own, off, _) => o != own && o < off
    case Publish(own) => o != own
    case _ => false
  }

  /** The thread's claim has not been invalidated by a rival. */
  ghost predicate Contends(c: Config, bs: seq<Bucket>, th: Thread)
    requires ProbeOK(c) && |bs| == c.cap && ThreadOK(c, th)
  {
    Racing(th.pc) && bs[c.probe(th.table, th.key, Owned(th.pc).value)].ptr == Inserting(th.op.data)
  }

  /** Two contenders for one key have never both moved past each other. */
  ghost predicate RivalInv(c: Config, bs: seq<Bucket>, th: Thread, other: Thread)
    requires ProbeOK(c) && |bs| == c.cap && ThreadOK(c, th) && ThreadOK(c, other)
  {
    && Contends(c, bs, th) && Contends(c, bs, other) && th.table == other.table && th.key == other.key
    ==> !(Past(th, Owned(other.pc).value) && Past(other, Owned(th.pc).value))
  }

  /** A contender has not moved past a bucket in which its key is live. */
  ghost predicate LiveInv(c: Config, bs: seq<Bucket>, th: Thread)
    requires ProbeOK(c) && |bs| == c.cap && ThreadOK(c, th)
  {
    Contends(c, bs, th) ==>
      forall o | 0 <= o < c.cap && Past(th, o) :: !Holds(bs[c.probe(th.table, th.key, o)], th.table, th.key)
  }

  predicate Holds(b: Bucket, table: nat, key: nat) {
    b.ptr.Live? && b.table == table && b.key == key
  }

  ghost predicate Distinct(c: Config, th: Thread, other: Thread)
    requires ProbeOK(c) && ThreadOK(c, th) && ThreadOK(c, other)
  {
    Owned(th.pc).Some? && Owned(other.pc).Some? ==>
      c.probe(th.table, th.key, Owned(th.pc).value) != c.probe(other.table, other.key, Owned(other.pc).value)
  }

  /** At most one bucket holds an unmarked pointer for any <table, key> pair. */
  ghost predicate Unique(bs: seq<Bucket>) {
    forall x, y | 0 <= x < |bs| && 0 <= y < |bs| && Holds(bs[x], bs[y].table, bs[y].key) && bs[y].ptr.Live? :: x == y
  }

  ghost predicate Inv(c: Config, s: State) {
    && WF(c, s)
    && (forall i | i in s.threads :: ThreadInv(c, s.buckets, s.threads[i]))
    && (forall i | i in s.threads :: LiveInv(c, s.buckets, s.threads[i]))
    && (forall i, j | i in s.threads && j in s.threads && i != j :: Distinct(c, s.threads[i], s.threads[j]))
    && (forall i, j | i in s.threads && j in s.threads && i != j ::
          RivalInv(c, s.buckets, s.threads[i], s.threads[j]))
    && (forall x | 0 <= x < c.cap :: BucketInv(c, s.buckets, x))
    && Unique(s.buckets)
  }

  // ------------------------------------------------------------------ every step keeps the invariant

  ghost function After(c: Config, bs: seq<Bucket>, th: Thread): (seq<Bucket>, Thread)
    requires ProbeOK(c) && |bs| == c.cap && ThreadOK(c, th) && !th.pc.Return?
  {
    var x := Target(c, th);
    var (b, pc) := Access(c, bs[x], th);
    (bs[x := b], th.(pc := Skip(c, th.op, pc)))
  }

  lemma ScanKeepsThreadOK(c: Config, b: Bucket, th: Thread)
    requires ThreadOK(c, th) && ScanPc(th.pc)
    ensures ThreadOK(c, th.(pc := Skip(c, th.op, AccessScan(c, b, th).1)))
  {
  }

  lemma FindKeepsThreadOK(c: Config, b: Bucket, th: Thread)
    requires ThreadOK(c, th) && FindPc(th.pc)
    ensures ThreadOK(c, th.(pc := Skip(c, th.op, AccessFind(c, b, th).1)))
  {
  }

  lemma WipeKeepsThreadOK(c: Config, b: Bucket, th: Thread)
    requires ThreadOK(c, th) && WipePc(th.pc)
    ensures ThreadOK(c, th.(pc := Skip(c, th.op, AccessWipe(b, th.pc).1)))
  {
  }

  lemma InsertKeepsThreadOK(c: Config, b: Bucket, th: Thread)
    requires ThreadOK(c, th) && InsertPc(th.pc) && !ScanPc(th.pc)
    ensures ThreadOK(c, th.(pc := Skip(c, th.op, AccessInsert(c, b, th).1)))
  {
  }

  lemma ActualKeepsThreadOK(c: Config, b: Bucket, th: Thread)
    requires ThreadOK(c, th) && !InsertPc(th.pc) && !FindPc(th.pc) && !WipePc(th.pc) && !th.pc.Return?
    ensures ThreadOK(c, th.(pc := Skip(c, th.op, AccessActual(c, b, th))))
  {
  }

  lemma StepKeepsThreadOK(c: Config, bs: seq<Bucket>, th: Thread)
    requires ProbeOK(c) && |bs| == c.cap && ThreadOK(c, th) && !th.pc.Return?
    ensures ThreadOK(c, After(c, bs, th).1)
  {
    hide AccessScan, AccessInsert, AccessFind, AccessWipe, AccessActual, Skip, PcOK;
    var b := bs[Target(c, th)];
    if ScanPc(th.pc) {
      ScanKeepsThreadOK(c, b, th);
    } else if WipePc(th.pc) {
      WipeKeepsThreadOK(c, b, th);
    } else if FindPc(th.pc) {
      FindKeepsThreadOK(c, b, th);
    } else if InsertPc(th.pc) {
      InsertKeepsThreadOK(c, b, th);
    } else {
      ActualKeepsThreadOK(c, b, th);
    }
  }

  lemma OwnedStep(c: Config, b: Bucket, th: Thread)
    requires ThreadOK(c, th) && Owned(th.pc).Some? && Owned(th.pc) == Offset(th.pc) && OwnsOK(b, th)
    ensures var (b', pc) := Access(c, b, th);
            var th' := th.(pc := Skip(c, th.op, pc));
            ThreadOK(c, th') &&
            (Owned(th'.pc).Some? ==> Owned(th'.pc) == Owned(th.pc) && OwnsOK(b', th'))
  {
  }

  lemma TakingStep(c: Config, b: Bucket, th: Thread)
    requires ThreadOK(c, th) && !th.pc.Return? && Owned(th.pc).None? && Blank(b)
    ensures var (b', pc) := Access(c, b, th);
            var th' := th.(pc := Skip(c, th.op, pc));
            Owned(th'.pc).Some? ==> ThreadOK(c, th') && Owned(th'.pc) == Offset(th.pc) && OwnsOK(b', th')
  {
  }

  lemma ScanningStep(c: Config, b: Bucket, th: Thread)
    requires ThreadOK(c, th) && ScanPc(th.pc)
    ensures var pc' := Skip(c, th.op, AccessScan(c, b, th).1);
            Owned(pc') == Owned(th.pc) && (Racing(pc') || pc'.Abort?)
  {
  }

  lemma StepKeepsOwned(c: Config, bs: seq<Bucket>, th: Thread)
    requires ProbeOK(c) && |bs| == c.cap && ThreadOK(c, th) && !th.pc.Return?
    requires ThreadInv(c, bs, th) && Blank(bs[Target(c, th)])
    ensures var th' := After(c, bs, th).1;
            ThreadOK(c, th') &&
            (Owned(th'.pc).Some? ==>
               OwnsOK(After(c, bs, th).0[c.probe(th.table, th.key, Owned(th'.pc).value)], th'))
  {
    StepKeepsThreadOK(c, bs, th);
    var b := bs[Target(c, th)];
    if Owned(th.pc).None? {
      TakingStep(c, b, th);
    } else if ScanPc(th.pc) {
      ScanningStep(c, b, th);
    } else {
      OwnedStep(c, b, th);
    }
  }

  lemma StepKeepsClaimedChain(c: Config, bs: seq<Bucket>, th: Thread)
    requires ProbeOK(c) && |bs| == c.cap && ThreadOK(c, th) && !th.pc.Return?
    requires ChainInv(c, bs, th) && Owned(th.pc).Some?
    ensures ThreadOK(c, After(c, bs, th).1)
    ensures ChainInv(c, After(c, bs, th).0, After(c, bs, th).1)
  {
    StepKeepsThreadOK(c, bs, th);
    var pc' := After(c, bs, th).1.pc;
    assert InsertPc(pc') ==> InsertPc(th.pc) && Owned(pc') == Owned(th.pc) && !pc'.Claim?;
    if InsertPc(pc') {
      StepKeepsFull(c, bs, th, th.table, th.key, Owned(th.pc).value);
    }
  }

  lemma StepKeepsChain(c: Config, bs: seq<Bucket>, th: Thread)
    requires ProbeOK(c) && |bs| == c.cap && ThreadOK(c, th) && !th.pc.Return?
    requires ChainInv(c, bs, th)
    ensures ThreadOK(c, After(c, bs, th).1)
    ensures ChainInv(c, After(c, bs, th).0, After(c, bs, th).1)
  {
    hide Reachable, Past;
    if Owned(th.pc).Some? {
      StepKeepsClaimedChain(c, bs, th);
    } else {
      StepKeepsThreadOK(c, bs, th);
      var pc' := After(c, bs, th).1.pc;
      assert InsertPc(pc') ==> th.pc.Probe? || th.pc.Claim?;
      if InsertPc(pc') {
        StepKeepsFull(c, bs, th, th.table, th.key, th.pc.off);
      }
    }
  }

  lemma StepKeepsOwn(c: Config, bs: seq<Bucket>, th: Thread)
    requires ProbeOK(c) && |bs| == c.cap && ThreadOK(c, th) && !th.pc.Return?
    requires ThreadInv(c, bs, th) && Blank(bs[Target(c, th)])
    ensures ThreadOK(c, After(c, bs, th).1)
    ensures ThreadInv(c, After(c, bs, th).0, After(c, bs, th).1)
  {
    StepKeepsOwned(c, bs, th);
    StepKeepsChain(c, bs, th);
  }

  /** A step on a bucket the thread does not own claims a blank bucket, replaces or retires a live pointer, or kills
      a rival's claim; otherwise it changes nothing. */
  lemma StepOnForeign(c: Config, b: Bucket, th: Thread)
    requires ThreadOK(c, th) && !th.pc.Return? && Owned(th.pc) != Offset(th.pc)
    ensures var b' := Access(c, b, th).0;
            b' == b || b.ptr.Free? || b.ptr.Deleted? || b.ptr.Live? || (b.ptr.Inserting? && b' == b.(ptr := Invalid))
  {
  }

  /** A thread comes to own a bucket only by claiming a blank one or by erasing a live one. */
  lemma StepTakes(c: Config, b: Bucket, th: Thread)
    requires ThreadOK(c, th) && !th.pc.Return?
    ensures var pc' := Skip(c, th.op, Access(c, b, th).1);
            Owned(pc').Some? && Owned(pc') != Owned(th.pc) ==>
              Owned(pc') == Offset(th.pc) && (b.ptr.Free? || b.ptr.Deleted? || b.ptr.Live?)
  {
  }

  /** No bucket ever becomes free again. */
  lemma StepKeepsTaken(c: Config, b: Bucket, th: Thread)
    requires ThreadOK(c, th) && !th.pc.Return? && !b.ptr.Free?
    ensures !Access(c, b, th).0.ptr.Free?
  {
  }

  lemma StepKeepsFull(c: Config, bs: seq<Bucket>, th: Thread, table: nat, key: nat, o: nat)
    requires ProbeOK(c) && |bs| == c.cap && ThreadOK(c, th) && !th.pc.Return? && o <= c.cap
    requires FullBelow(c, bs, table, key, o)
    ensures FullBelow(c, After(c, bs, th).0, table, key, o)
  {
    var x := Target(c, th);
    if !bs[x].ptr.Free? {
      StepKeepsTaken(c, bs[x], th);
    }
  }

  lemma StepKeepsOther(c: Config, bs: seq<Bucket>, th: Thread, other: Thread)
    requires ProbeOK(c) && |bs| == c.cap && ThreadOK(c, th) && !th.pc.Return? && ThreadOK(c, other)
    requires ThreadInv(c, bs, other) && Distinct(c, th, other)
    ensures ThreadInv(c, After(c, bs, th).0, other)
  {
    var x := Target(c, th);
    if Owned(th.pc) != Offset(th.pc) {
      StepOnForeign(c, bs[x], th);
    }
    if !bs[x].ptr.Free? {
      StepKeepsTaken(c, bs[x], th);
    }
    if InsertPc(other.pc) {
      var o := (if Owned(other.pc).Some? then Owned(other.pc) else Offset(other.pc)).value;
      StepKeepsFull(c, bs, th, other.table, other.key, o);
    }
  }

  lemma StepKeepsDistinct(c: Config, bs: seq<Bucket>, th: Thread, other: Thread)
    requires ProbeOK(c) && |bs| == c.cap && ThreadOK(c, th) && !th.pc.Return? && ThreadOK(c, other)
    requires ThreadInv(c, bs, other) && Distinct(c, th, other)
    ensures ThreadOK(c, After(c, bs, th).1)
    ensures Distinct(c, After(c, bs, th).1, other) && Distinct(c, other, After(c, bs, th).1)
  {
    StepKeepsThreadOK(c, bs, th);
    StepTakes(c, bs[Target(c, th)], th);
  }

  lemma StepKeepsBlank(c: Config, bs: seq<Bucket>, th: Thread)
    requires ProbeOK(c) && |bs| == c.cap && ThreadOK(c, th) && !th.pc.Return?
    requires ThreadInv(c, bs, th) && Blank(bs[Target(c, th)])
    ensures Blank(After(c, bs, th).0[Target(c, th)])
  {
  }

  lemma StepKeepsReachable(c: Config, bs: seq<Bucket>, th: Thread, y: nat, table: nat, key: nat)
    requires ProbeOK(c) && |bs| == c.cap && ThreadOK(c, th) && !th.pc.Return? && y < c.cap
    requires Reachable(c, bs, y, table, key)
    ensures Reachable(c, After(c, bs, th).0, y, table, key)
  {
    var o :| 0 <= o < c.cap && c.probe(table, key, o) == y && FullBelow(c, bs, table, key, o);
    StepKeepsFull(c, bs, th, table, key, o);
  }

  /** A step that makes a bucket live either publishes its own claim or replaces a live pointer. */
  lemma StepMakesLive(c: Config, bs: seq<Bucket>, th: Thread)
    requires ProbeOK(c) && |bs| == c.cap && ThreadOK(c, th) && !th.pc.Return?
    requires ThreadInv(c, bs, th)
    requires After(c, bs, th).0[Target(c, th)].ptr.Live?
    ensures var b, b' := bs[Target(c, th)], After(c, bs, th).0[Target(c, th)];
            && b'.table == b.table && b'.key == b.key
            && (b.ptr.Live? || (th.pc.Publish? && Contends(c, bs, th) && b.table == th.table && b.key == th.key))
  {
  }

  lemma StepKeepsBucket(c: Config, bs: seq<Bucket>, th: Thread, y: nat)
    requires ProbeOK(c) && |bs| == c.cap && ThreadOK(c, th) && !th.pc.Return? && y < c.cap
    requires ThreadInv(c, bs, th) && Blank(bs[Target(c, th)])
    requires BucketInv(c, bs, y)
    ensures BucketInv(c, After(c, bs, th).0, y)
  {
    var x := Target(c, th);
    var bs' := After(c, bs, th).0;
    StepKeepsBlank(c, bs, th);
    if bs'[y].ptr.Live? {
      if y == x {
        StepMakesLive(c, bs, th);
      }
      if !bs[y].ptr.Live? {
        assert FullBelow(c, bs, th.table, th.key, th.pc.own);
      }
      StepKeepsReachable(c, bs, th, y, bs[y].table, bs[y].key);
    }
  }

  /** Whoever has claimed a bucket for a key claimed it in front of the first free bucket. */
  lemma FreeEndsChain(c: Config, bs: seq<Bucket>, th: Thread, table: nat, key: nat, off: nat)
    requires ProbeOK(c) && |bs| == c.cap && ThreadOK(c, th) && ThreadInv(c, bs, th)
    requires off < c.cap && bs[c.probe(table, key, off)].ptr.Free?
    requires InsertPc(th.pc) && Owned(th.pc).Some? && th.table == table && th.key == key
    ensures Owned(th.pc).value < off
  {
  }

  lemma FreeEndsLive(c: Config, bs: seq<Bucket>, table: nat, key: nat, off: nat, o: nat)
    requires ProbeOK(c) && |bs| == c.cap && off < c.cap && o < c.cap
    requires bs[c.probe(table, key, off)].ptr.Free?
    requires BucketInv(c, bs, c.probe(table, key, o)) && Holds(bs[c.probe(table, key, o)], table, key)
    ensures o < off
  {
    var p :| 0 <= p < c.cap && c.probe(table, key, p) == c.probe(table, key, o) && FullBelow(c, bs, table, key, p);
    assert p == o;
  }

  /** A contender moves past a bucket only when that bucket, at that moment, neither holds its key nor contends. */
  lemma StepMovesPast(c: Config, bs: seq<Bucket>, th: Thread, o: nat)
    requires ProbeOK(c) && |bs| == c.cap && ThreadOK(c, th) && !th.pc.Return? && o < c.cap
    requires ScanPc(th.pc) && !Past(th, o)
    requires Racing(After(c, bs, th).1.pc) && Past(After(c, bs, th).1, o)
    ensures var b := bs[c.probe(th.table, th.key, o)];
            || (th.pc.ScanPtr? && bs[Target(c, th)].ptr.Free? && o >= th.pc.off)
            || (th.pc.ScanPtr? && o == th.pc.off && (b.ptr.Deleted? || b.ptr.Invalid?))
            || (th.pc.ScanTable? && o == th.pc.off && b.table != th.table)
            || (th.pc.ScanKey? && o == th.pc.off && b.key != th.key)
            || (th.pc.Kill? && o == th.pc.off && !b.ptr.Live?
                && !After(c, bs, th).0[c.probe(th.table, th.key, o)].ptr.Inserting?)
  {
  }

  lemma StepStaysPast(c: Config, bs: seq<Bucket>, th: Thread, o: nat)
    requires ProbeOK(c) && |bs| == c.cap && ThreadOK(c, th) && !th.pc.Return? && o < c.cap
    requires Racing(After(c, bs, th).1.pc) && Past(After(c, bs, th).1, o)
    ensures ScanPc(th.pc)
  {
  }

  lemma StepKeepsContends(c: Config, bs: seq<Bucket>, th: Thread, other: Thread)
    requires ProbeOK(c) && |bs| == c.cap && ThreadOK(c, th) && !th.pc.Return? && ThreadOK(c, other)
    requires ThreadInv(c, bs, other) && Distinct(c, th, other)
    requires Contends(c, After(c, bs, th).0, other)
    ensures Contends(c, bs, other)
  {
    if Owned(th.pc) != Offset(th.pc) {
      StepOnForeign(c, bs[Target(c, th)], th);
    }
  }

  lemma StepKeepsOwnLive(c: Config, bs: seq<Bucket>, th: Thread)
    requires ProbeOK(c) && |bs| == c.cap && ThreadOK(c, th) && !th.pc.Return?
    requires ThreadInv(c, bs, th) && LiveInv(c, bs, th)
    requires forall x | 0 <= x < c.cap :: BucketInv(c, bs, x)
    ensures ThreadOK(c, After(c, bs, th).1)
    ensures LiveInv(c, After(c, bs, th).0, After(c, bs, th).1)
  {
    StepKeepsThreadOK(c, bs, th);
    var x := Target(c, th);
    var (bs', th') := After(c, bs, th);
    if Contends(c, bs', th') {
      forall o | 0 <= o < c.cap && Past(th', o)
        ensures !Holds(bs'[c.probe(th.table, th.key, o)], th.table, th.key)
      {
        StepStaysPast(c, bs, th, o);
        if !Past(th, o) {
          StepMovesPast(c, bs, th, o);
        }
        var y := c.probe(th.table, th.key, o);
        if Holds(bs'[y], th.table, th.key) {
          StepKeepsOwnBuckets(c, bs, th);
          assert BucketInv(c, bs, y);
          if th.pc.ScanPtr? && bs[x].ptr.Free? {
            FreeEndsLive(c, bs, th.table, th.key, th.pc.off, o);
          }
        }
      }
    }
  }

  lemma RacingFrom(c: Config, b: Bucket, th: Thread)
    requires ThreadOK(c, th) && !th.pc.Return?
    requires Racing(Skip(c, th.op, Access(c, b, th).1))
    ensures th.pc.PutTable? || ScanPc(th.pc)
  {
  }

  /** While a thread contends, its own steps make no bucket live and change no bucket's key but its own. */
  lemma StepKeepsOwnBuckets(c: Config, bs: seq<Bucket>, th: Thread)
    requires ProbeOK(c) && |bs| == c.cap && ThreadOK(c, th) && !th.pc.Return?
    requires ThreadInv(c, bs, th)
    requires Racing(After(c, bs, th).1.pc)
    ensures ThreadOK(c, After(c, bs, th).1)
    ensures Contends(c, After(c, bs, th).0, After(c, bs, th).1) ==> th.pc.PutTable? || Contends(c, bs, th)
    ensures var b, b' := bs[Target(c, th)], After(c, bs, th).0[Target(c, th)];
            && (b'.ptr.Live? ==> b == b')
            && (th.pc.PutTable? || (b'.table == b.table && b'.key == b.key))
            && (th.pc.PutTable? ==> !b'.ptr.Live? && !b.ptr.Live?)
  {
    var b := bs[Target(c, th)];
    StepKeepsThreadOK(c, bs, th);
    RacingFrom(c, b, th);
    if ScanPc(th.pc) {
      ScanningStep(c, b, th);
      assert Owned(th.pc) != Offset(th.pc);
    }
  }

  lemma StepKeepsOtherLive(c: Config, bs: seq<Bucket>, th: Thread, other: Thread)
    requires ProbeOK(c) && |bs| == c.cap && ThreadOK(c, th) && !th.pc.Return? && ThreadOK(c, other)
    requires ThreadInv(c, bs, th) && ThreadInv(c, bs, other) && Distinct(c, th, other)
    requires RivalInv(c, bs, th, other) && LiveInv(c, bs, other)
    ensures LiveInv(c, After(c, bs, th).0, other)
  {
    var x := Target(c, th);
    var bs' := After(c, bs, th).0;
    if Contends(c, bs', other) {
      StepKeepsContends(c, bs, th, other);
      forall o | 0 <= o < c.cap && Past(other, o)
        ensures !Holds(bs'[c.probe(other.table, other.key, o)], other.table, other.key)
      {
        var y := c.probe(other.table, other.key, o);
        if y == x && bs'[x].ptr.Live? {
          StepMakesLive(c, bs, th);
        }
      }
    }
  }

  lemma StepKeepsRival(c: Config, bs: seq<Bucket>, th: Thread, other: Thread)
    requires ProbeOK(c) && |bs| == c.cap && ThreadOK(c, th) && !th.pc.Return? && ThreadOK(c, other)
    requires ThreadInv(c, bs, th) && ThreadInv(c, bs, other) && Distinct(c, th, other)
    requires RivalInv(c, bs, th, other)
    ensures ThreadOK(c, After(c, bs, th).1)
    ensures RivalInv(c, After(c, bs, th).0, After(c, bs, th).1, other)
    ensures RivalInv(c, After(c, bs, th).0, other, After(c, bs, th).1)
  {
    StepKeepsThreadOK(c, bs, th);
    var th' := After(c, bs, th).1;
    if Contends(c, After(c, bs, th).0, th') && Contends(c, After(c, bs, th).0, other)
       && th.table == other.table && th.key == other.key
    {
      StepKeepsContends(c, bs, th, other);
      StepKeepsOwnBuckets(c, bs, th);
      StepKeepsRivalPast(c, bs, th, other);
    }
  }

  lemma StepKeepsRivalPast(c: Config, bs: seq<Bucket>, th: Thread, other: Thread)
    requires ProbeOK(c) && |bs| == c.cap && ThreadOK(c, th) && !th.pc.Return? && ThreadOK(c, other)
    requires ThreadInv(c, bs, th) && ThreadInv(c, bs, other) && Distinct(c, th, other)
    requires RivalInv(c, bs, th, other) && th.table == other.table && th.key == other.key
    requires Racing(After(c, bs, th).1.pc) && Contends(c, bs, other) && Contends(c, After(c, bs, th).0, other)
    requires ScanPc(th.pc) ==> Contends(c, bs, th)
    ensures var th' := After(c, bs, th).1;
            !(Past(th', Owned(other.pc).value) && Past(other, Owned(th'.pc).value))
  {
    var th' := After(c, bs, th).1;
    var o := Owned(other.pc).value;
    if ScanPc(th.pc) {
      ScanningStep(c, bs[Target(c, th)], th);
      if th.pc.ScanPtr? && bs[Target(c, th)].ptr.Free? {
        FreeEndsChain(c, bs, other, th.table, th.key, th.pc.off);
      }
    }
    if Past(th', o) {
      StepStaysPast(c, bs, th, o);
      if !Past(th, o) {
        StepMovesPast(c, bs, th, o);
      }
    }
  }

  lemma StepKeepsUnique(c: Config, bs: seq<Bucket>, th: Thread)
    requires ProbeOK(c) && |bs| == c.cap && ThreadOK(c, th) && !th.pc.Return?
    requires ThreadInv(c, bs, th) && LiveInv(c, bs, th)
    requires forall x | 0 <= x < c.cap :: BucketInv(c, bs, x)
    requires Unique(bs)
    ensures Unique(After(c, bs, th).0)
  {
    var x := Target(c, th);
    var bs' := After(c, bs, th).0;
    if bs'[x].ptr.Live? {
      StepMakesLive(c, bs, th);
      if !bs[x].ptr.Live? {
        forall y | 0 <= y < |bs| && y != x ensures !Holds(bs[y], th.table, th.key) {
          assert BucketInv(c, bs, y);
        }
      }
    }
  }

  // ------------------------------------------------------------------ runs

  ghost predicate Step(c: Config, s: State, l: Label, s': State) {
    WF(c, s) && Enabled(c, s, l) && s' == Next(c, s, l)
  }

  /** `ss` are the states of a run from the empty table under the schedule `ls`. */
  ghost predicate Execution(c: Config, ss: seq<State>, ls: seq<Label>) {
    && |ss| == |ls| + 1
    && Init(c, ss[0])
    && forall i | 0 <= i < |ls| :: Step(c, ss[i], ls[i], ss[i + 1])
  }

  lemma InitInv(c: Config, s: State)
    requires Init(c, s)
    ensures Inv(c, s)
  {
  }

  lemma TickKeepsInv(c: Config, s: State, tid: nat)
    requires Inv(c, s) && Enabled(c, s, Tick(tid))
    ensures Inv(c, Next(c, s, Tick(tid)))
  {
    hide PcOK, OwnsOK, Past, Skip;
    var s' := Next(c, s, Tick(tid));
    var th, bs := s.threads[tid], s.buckets;
    assert (s'.buckets, s'.threads[tid]) == After(c, bs, th);
    assert BucketInv(c, bs, Target(c, th));
    StepKeepsThreadOK(c, bs, th);
    forall i | i in s'.threads
      ensures ThreadOK(c, s'.threads[i])
      ensures ThreadInv(c, s'.buckets, s'.threads[i]) && LiveInv(c, s'.buckets, s'.threads[i])
    {
      if i == tid {
        StepKeepsOwn(c, bs, th);
        StepKeepsOwnLive(c, bs, th);
      } else {
        assert Distinct(c, th, s.threads[i]) && RivalInv(c, bs, th, s.threads[i]);
        StepKeepsOther(c, bs, th, s.threads[i]);
        StepKeepsOtherLive(c, bs, th, s.threads[i]);
      }
    }
    forall i, j | i in s'.threads && j in s'.threads && i != j
      ensures Distinct(c, s'.threads[i], s'.threads[j])
      ensures RivalInv(c, s'.buckets, s'.threads[i], s'.threads[j])
    {
      TickKeepsPair(c, s, tid, i, j);
    }
    forall x | 0 <= x < c.cap ensures BucketInv(c, s'.buckets, x) {
      StepKeepsBucket(c, bs, th, x);
    }
    StepKeepsUnique(c, bs, th);
  }

  lemma TickKeepsPair(c: Config, s: State, tid: nat, i: nat, j: nat)
    requires Inv(c, s) && Enabled(c, s, Tick(tid))
    requires i in s.threads && j in s.threads && i != j
    requires WF(c, Next(c, s, Tick(tid)))
    ensures var s' := Next(c, s, Tick(tid));
            && Distinct(c, s'.threads[i], s'.threads[j])
            && RivalInv(c, s'.buckets, s'.threads[i], s'.threads[j])
  {
    hide Access, Skip, PcOK, ThreadInv, LiveInv, BucketInv, Unique, Past, OwnsOK;
    var s' := Next(c, s, Tick(tid));
    var th, bs := s.threads[tid], s.buckets;
    assert (s'.buckets, s'.threads[tid]) == After(c, bs, th);
    if i == tid || j == tid {
      var o := s.threads[if i == tid then j else i];
      assert Distinct(c, th, o) && RivalInv(c, bs, th, o);
      StepKeepsDistinct(c, bs, th, o);
      StepKeepsRival(c, bs, th, o);
    } else {
      assert Distinct(c, th, s.threads[i]) && Distinct(c, th, s.threads[j]);
      assert Distinct(c, s.threads[i], s.threads[j]) && RivalInv(c, bs, s.threads[i], s.threads[j]);
      if Contends(c, s'.buckets, s.threads[i]) && Contends(c, s'.buckets, s.threads[j]) {
        StepKeepsContends(c, bs, th, s.threads[i]);
        StepKeepsContends(c, bs, th, s.threads[j]);
      }
    }
  }

  lemma CallKeepsInv(c: Config, s: State, l: Label)
    requires Inv(c, s) && Enabled(c, s, l) && l.Call?
    ensures Inv(c, Next(c, s, l))
  {
    hide Past, Reachable, OwnsOK;
    var s' := Next(c, s, l);
    var th := s'.threads[l.tid];
    assert ThreadOK(c, th) && ThreadInv(c, s.buckets, th) && Owned(th.pc).None?;
  }

  lemma LeaveKeepsInv(c: Config, s: State, l: Label)
    requires Inv(c, s) && Enabled(c, s, l) && l.Leave?
    ensures Inv(c, Next(c, s, l))
  {
  }

  lemma NextKeepsInv(c: Config, s: State, l: Label)
    requires Inv(c, s) && Enabled(c, s, l)
    ensures Inv(c, Next(c, s, l))
  {
    match l
    case Tick(tid) => TickKeepsInv(c, s, tid);
    case Call(_, _, _, _, _) => CallKeepsInv(c, s, l);
    case Leave(_) => LeaveKeepsInv(c, s, l);
  }

  lemma {:induction false} ExecutionInv(c: Config, ss: seq<State>, ls: seq<Label>, i: nat)
    requires Execution(c, ss, ls) && i < |ss|
    ensures Inv(c, ss[i])
  {
    if i == 0 {
      InitInv(c, ss[0]);
    } else {
      ExecutionInv(c, ss, ls, i - 1);
      assert Step(c, ss[i - 1], ls[i - 1], ss[i]);
      NextKeepsInv(c, ss[i - 1], ls[i - 1]);
    }
  }

  /** Under every interleaving of inserts, updates, erases and lookups, in every state of the run, at most one
      bucket holds an unmarked pointer for any <table, key> pair.  No assumption on the data pointers is needed. */
  lemma AtMostOneLiveBucket(c: Config, ss: seq<State>, ls: seq<Label>, i: nat, x: nat, y: nat, table: nat, key: nat)
    requires Execution(c, ss, ls) && i < |ss| && x < c.cap && y < c.cap
    requires |ss[i].buckets| == c.cap
    requires Holds(ss[i].buckets[x], table, key) && Holds(ss[i].buckets[y], table, key)
    ensures x == y
  {
    ExecutionInv(c, ss, ls, i);
  }

  /** The conflict scan meets a free bucket only behind the inserter's own bucket (asserted in the code). */
  lemma ScanEndsBehindOwn(c: Config, ss: seq<State>, ls: seq<Label>, i: nat, tid: nat)
    requires Execution(c, ss, ls) && i < |ss|
    requires WF(c, ss[i]) && tid in ss[i].threads && ss[i].threads[tid].pc.ScanPtr?
    requires ss[i].buckets[Target(c, ss[i].threads[tid])].ptr.Free?
    ensures ss[i].threads[tid].pc.own < ss[i].threads[tid].pc.off
  {
    ExecutionInv(c, ss, ls, i);
    var th := ss[i].threads[tid];
    FreeEndsChain(c, ss[i].buckets, th, th.table, th.key, th.pc.off);
  }

  // ------------------------------------------------------------------ a lookup does not miss its key

  /** The lookup has got past offset `o`, or has read something there that makes it move on. */
  ghost predicate FoundPast(th: Thread, o: nat) {
    match th.pc
    case FindPtr(off) => o < off
    case FindTable(off, _) => o < off
    case FindKey(off, _, t) => o < off || (o == off && t != th.table)
    case FindAgain(off, _, t, k) => o < off || (o == off && (t != th.table || k != th.key))
    case Swap(_) => false
    case Return(res) => th.op.Get? && res.ptr.None?
    case _ => !th.op.Get?
  }

  /** The search of execOnElement goes on; a get keeps what it found out when it returns. */
  predicate Looking(th: Thread) {
    th.op.Get? || th.pc.FindPtr? || th.pc.FindTable? || th.pc.FindKey? || th.pc.FindAgain?
  }

  /** As long as the anchor still holds the key in the epoch of the call, the search has not moved past it. */
  ghost predicate AnchorInv(c: Config, bs: seq<Bucket>, th: Thread)
    requires ProbeOK(c) && |bs| == c.cap && ThreadOK(c, th)
  {
    Looking(th) && th.anchor.Some? ==>
      var (x, n) := th.anchor.value;
      && x < c.cap && n <= bs[x].epoch
      && (bs[x].ptr.Live? && bs[x].epoch == n ==>
            && Holds(bs[x], th.table, th.key)
            && Reachable(c, bs, x, th.table, th.key)
            && forall o | 0 <= o < c.cap && c.probe(th.table, th.key, o) == x :: !FoundPast(th, o))
  }

  /** A bucket that is live in an old epoch after a step was live in it, with the same key, before the step. */
  lemma StepKeepsEpoch(c: Config, bs: seq<Bucket>, th: Thread)
    requires ProbeOK(c) && |bs| == c.cap && ThreadOK(c, th) && !th.pc.Return?
    requires ThreadInv(c, bs, th)
    ensures var b, b' := bs[Target(c, th)], After(c, bs, th).0[Target(c, th)];
            && b.epoch <= b'.epoch
            && (b'.ptr.Live? && b.epoch == b'.epoch ==> b.ptr.Live? && b.table == b'.table && b.key == b'.key)
  {
  }

  lemma StepKeepsAnchor(c: Config, bs: seq<Bucket>, th: Thread, other: Thread)
    requires ProbeOK(c) && |bs| == c.cap && ThreadOK(c, th) && !th.pc.Return? && ThreadOK(c, other)
    requires ThreadInv(c, bs, th) && AnchorInv(c, bs, other)
    ensures AnchorInv(c, After(c, bs, th).0, other)
  {
    StepKeepsEpoch(c, bs, th);
    if Looking(other) && other.anchor.Some? {
      var (x, n) := other.anchor.value;
      if bs[x].ptr.Live? && bs[x].epoch == n {
        StepKeepsReachable(c, bs, th, x, other.table, other.key);
      }
    }
  }

  lemma StepKeepsOwnAnchor(c: Config, bs: seq<Bucket>, th: Thread)
    requires ProbeOK(c) && |bs| == c.cap && ThreadOK(c, th) && !th.pc.Return?
    requires ThreadInv(c, bs, th) && AnchorInv(c, bs, th)
    requires forall x | 0 <= x < c.cap :: BucketInv(c, bs, x)
    ensures ThreadOK(c, After(c, bs, th).1)
    ensures AnchorInv(c, After(c, bs, th).0, After(c, bs, th).1)
  {
    hide BucketInv, Holds, FoundPast, ThreadInv, Reachable;
    StepKeepsThreadOK(c, bs, th);
    StepKeepsAnchor(c, bs, th, th);
    if Looking(After(c, bs, th).1) && th.anchor.Some? {
      var (bs', th') := After(c, bs, th);
      var (x, n) := th.anchor.value;
      assert Looking(th) by { LookedBefore(c, bs, th); }
      if bs'[x].ptr.Live? && bs'[x].epoch == n {
        StepKeepsEpoch(c, bs, th);
        forall o | 0 <= o < c.cap && c.probe(th.table, th.key, o) == x
          ensures !FoundPast(th', o)
        {
          assert !FoundPast(th, o);
          StepNotPast(c, bs, th, x, o);
        }
      }
    }
  }

  lemma LookedBefore(c: Config, bs: seq<Bucket>, th: Thread)
    requires ProbeOK(c) && |bs| == c.cap && ThreadOK(c, th) && !th.pc.Return?
    ensures Looking(After(c, bs, th).1) ==> Looking(th)
  {
  }

  /** The search does not move past the live bucket of its key. */
  lemma StepNotPast(c: Config, bs: seq<Bucket>, th: Thread, x: nat, o: nat)
    requires ProbeOK(c) && |bs| == c.cap && ThreadOK(c, th) && !th.pc.Return? && Looking(th) && Looking(After(c, bs, th).1)
    requires o < c.cap && x == c.probe(th.table, th.key, o) && !FoundPast(th, o)
    requires Holds(bs[x], th.table, th.key) && Reachable(c, bs, x, th.table, th.key)
    ensures !FoundPast(After(c, bs, th).1, o)
  {
  }

  ghost predicate AllAnchors(c: Config, s: State)
    requires WF(c, s)
  {
    forall i | i in s.threads :: AnchorInv(c, s.buckets, s.threads[i])
  }

  lemma NextKeepsAnchors(c: Config, s: State, l: Label)
    requires Inv(c, s) && Enabled(c, s, l) && AllAnchors(c, s)
    ensures Inv(c, Next(c, s, l)) && AllAnchors(c, Next(c, s, l))
  {
    NextKeepsInv(c, s, l);
    var s' := Next(c, s, l);
    forall i | i in s'.threads ensures AnchorInv(c, s'.buckets, s'.threads[i]) {
      if l.Tick? {
        assert (s'.buckets, s'.threads[l.tid]) == After(c, s.buckets, s.threads[l.tid]);
        if i == l.tid {
          StepKeepsOwnAnchor(c, s.buckets, s.threads[i]);
        } else {
          StepKeepsAnchor(c, s.buckets, s.threads[l.tid], s.threads[i]);
        }
      } else if l.Call? && l.anchor.Some? {
        assert BucketInv(c, s.buckets, l.anchor.value.0);
      }
    }
  }

  lemma {:induction false} ExecutionAnchors(c: Config, ss: seq<State>, ls: seq<Label>, i: nat)
    requires Execution(c, ss, ls) && i < |ss|
    ensures Inv(c, ss[i]) && AllAnchors(c, ss[i])
  {
    if i == 0 {
      InitInv(c, ss[0]);
    } else {
      ExecutionAnchors(c, ss, ls, i - 1);
      assert Step(c, ss[i - 1], ls[i - 1], ss[i]);
      NextKeepsAnchors(c, ss[i - 1], ls[i - 1]);
    }
  }

  /** A lookup that returns nothing for a key that was live in bucket `x` when it was called overlapped an erase of
      it: the bucket has stopped being live, or has started a later epoch. */
  lemma LookupMissesNoKey(c: Config, ss: seq<State>, ls: seq<Label>, i: nat, tid: nat, x: nat, n: nat)
    requires Execution(c, ss, ls) && i < |ss|
    requires tid in ss[i].threads && ss[i].threads[tid].op.Get?
    requires ss[i].threads[tid].pc.Return? && ss[i].threads[tid].pc.res.ptr.None?
    requires ss[i].threads[tid].anchor == Some((x, n))
    ensures x < |ss[i].buckets| && !(ss[i].buckets[x].ptr.Live? && ss[i].buckets[x].epoch == n)
  {
    ExecutionAnchors(c, ss, ls, i);
  }

  /** The same for get, update and erase alike: when the search of any of them gives up, the key that was live in bucket
      `x` when the operation was called is no longer live there in that residency. */
  lemma SearchMissesNoKey(c: Config, ss: seq<State>, ls: seq<Label>, i: nat, tid: nat, x: nat, n: nat)
    requires Execution(c, ss, ls) && i < |ls| && ls[i] == Tick(tid)
    requires tid in ss[i].threads && tid in ss[i + 1].threads && ss[i].threads[tid].anchor == Some((x, n))
    requires ss[i].threads[tid].pc.FindPtr? || ss[i].threads[tid].pc.FindAgain?
    requires ss[i + 1].threads[tid].pc == Return(NotFound(ss[i].threads[tid].op))
    ensures x < |ss[i].buckets| && !(ss[i].buckets[x].ptr.Live? && ss[i].buckets[x].epoch == n)
    ensures ss[i + 1].buckets == ss[i].buckets
  {
    hide BucketInv, Unique, ThreadInv, RivalInv;
    ExecutionAnchors(c, ss, ls, i);
    assert Step(c, ss[i], ls[i], ss[i + 1]);
    var th := ss[i].threads[tid];
    assert ThreadOK(c, th) && AnchorInv(c, ss[i].buckets, th);
    SearchGivesUp(c, ss[i].buckets, th);
  }

  lemma SearchGivesUp(c: Config, bs: seq<Bucket>, th: Thread)
    requires ProbeOK(c) && |bs| == c.cap && ThreadOK(c, th) && AnchorInv(c, bs, th) && th.anchor.Some?
    requires (th.pc.FindPtr? || th.pc.FindAgain?) && After(c, bs, th).1.pc == Return(NotFound(th.op))
    ensures var (x, n) := th.anchor.value; x < |bs| && !(bs[x].ptr.Live? && bs[x].epoch == n)
    ensures After(c, bs, th).0 == bs
  {
  }

  // ------------------------------------------------------------------ what a returned pointer means

  /** The header's terms of use: a pointer belongs to one <table, key> pair, and a pointer under an epoch is stored
      in at most one residency of one bucket (it may leave and come back while the bucket stays live). */
  ghost predicate Disciplined(c: Config, owner: nat -> (nat, nat), s: State, l: Label)
    requires WF(c, s) && Enabled(c, s, l)
  {
    match l
    case Call(tid, table, key, op, _) =>
      && (op.Insert? ==> owner(op.data) == (table, key))
      && (op.Update? ==> owner(op.expected) == (table, key) && owner(op.desired) == (table, key))
      && (op.Erase? ==> owner(op.expected) == (table, key))
    case Leave(_) => true
    case Tick(tid) =>
      var x := Target(c, s.threads[tid]);
      var b, b' := s.buckets[x], Access(c, s.buckets[x], s.threads[tid]).0;
      b'.ptr.Live? && b'.ptr != b.ptr && b'.ptr.data in s.home ==> s.home[b'.ptr.data] == (x, b'.epoch)
  }

  predicate DataOwned(owner: nat -> (nat, nat), th: Thread) {
    && (th.op.Insert? ==> owner(th.op.data) == (th.table, th.key))
    && (th.op.Update? ==> owner(th.op.expected) == (th.table, th.key) && owner(th.op.desired) == (th.table, th.key))
    && (th.op.Erase? ==> owner(th.op.expected) == (th.table, th.key))
  }

  /** The live pointer a thread has loaded, and what it has read of the key since. */
  function Seen(pc: Pc): Option<(Ptr, Option<nat>, Option<nat>)> {
    match pc
    case ScanTable(_, _, seen) => Some((seen, None, None))
    case ScanKey(_, _, seen, t) => Some((seen, Some(t), None))
    case ScanAgain(_, _, seen, t, k) => Some((seen, Some(t), Some(k)))
    case FindTable(_, seen) => Some((seen, None, None))
    case FindKey(_, seen, t) => Some((seen, Some(t), None))
    case FindAgain(_, seen, t, k) => Some((seen, Some(t), Some(k)))
    case ActTable(_, seen) => Some((seen, None, None))
    case ActKey(_, seen, t) => Some((seen, Some(t), None))
    case ActAgain(_, seen, t, k) => Some((seen, Some(t), Some(k)))
    case _ => None
  }

  /** What a thread has read of a bucket's key is still right if the bucket is live in the epoch of the pointer. */
  ghost predicate SeenInv(c: Config, bs: seq<Bucket>, home: map<nat, (nat, nat)>, th: Thread)
    requires ProbeOK(c) && |bs| == c.cap && ThreadOK(c, th)
  {
    Seen(th.pc).Some? && Seen(th.pc).value.0.Live? ==>
      var (p, t, k) := Seen(th.pc).value;
      var x := Target(c, th);
      && p.data in home && home[p.data].0 == x && home[p.data].1 <= bs[x].epoch
      && (bs[x].ptr.Live? && bs[x].epoch == home[p.data].1 ==>
            && (t.Some? ==> t.value == bs[x].table)
            && (k.Some? ==> k.value == bs[x].key))
  }

  ghost predicate HomeInv(c: Config, owner: nat -> (nat, nat), bs: seq<Bucket>, home: map<nat, (nat, nat)>)
    requires |bs| == c.cap
  {
    && (forall d | d in home :: home[d].0 < c.cap && home[d].1 <= bs[home[d].0].epoch)
    && (forall x | 0 <= x < c.cap && bs[x].ptr.Live? ::
          && bs[x].ptr.data in home && home[bs[x].ptr.data] == (x, bs[x].epoch)
          && owner(bs[x].ptr.data) == (bs[x].table, bs[x].key))
  }

  ghost predicate Inv2(c: Config, owner: nat -> (nat, nat), s: State) {
    && Inv(c, s)
    && HomeInv(c, owner, s.buckets, s.home)
    && (forall i | i in s.threads :: SeenInv(c, s.buckets, s.home, s.threads[i]) && DataOwned(owner, s.threads[i]))
  }

  /** How a step can touch a bucket's liveness, in terms of the discipline. */
  lemma StepMakesHome(c: Config, owner: nat -> (nat, nat), bs: seq<Bucket>, th: Thread)
    requires ProbeOK(c) && |bs| == c.cap && ThreadOK(c, th) && !th.pc.Return?
    requires ThreadInv(c, bs, th) && DataOwned(owner, th)
    requires bs[Target(c, th)].ptr.Live? ==>
               owner(bs[Target(c, th)].ptr.data) == (bs[Target(c, th)].table, bs[Target(c, th)].key)
    ensures var b, b' := bs[Target(c, th)], After(c, bs, th).0[Target(c, th)];
            && (b'.ptr.Live? && b'.ptr != b.ptr ==> owner(b'.ptr.data) == (b'.table, b'.key))
            && (b'.ptr.Live? && b.ptr.Live? ==> b'.epoch == b.epoch && b'.table == b.table && b'.key == b.key)
            && (b'.ptr.Live? && !b.ptr.Live? ==> b'.epoch == b.epoch + 1)
  {
  }

  lemma TickKeepsHome(c: Config, owner: nat -> (nat, nat), s: State, tid: nat)
    requires Inv2(c, owner, s) && Enabled(c, s, Tick(tid)) && Disciplined(c, owner, s, Tick(tid))
    ensures var s' := Next(c, s, Tick(tid));
            |s'.buckets| == c.cap && HomeInv(c, owner, s'.buckets, s'.home)
    ensures forall d | d in s.home :: d in Next(c, s, Tick(tid)).home && Next(c, s, Tick(tid)).home[d] == s.home[d]
  {
    hide Access, Skip, PcOK, LiveInv, RivalInv, ThreadInv, Past, BucketInv, Unique, SeenInv;
    var th := s.threads[tid];
    assert (Next(c, s, Tick(tid)).buckets, Next(c, s, Tick(tid)).threads[tid]) == After(c, s.buckets, th);
    StepMakesHome(c, owner, s.buckets, th);
    StepKeepsEpoch(c, s.buckets, th);
  }

  lemma StepKeepsOtherSeen(c: Config, s: State, th: Thread, other: Thread, home': map<nat, (nat, nat)>)
    requires WF(c, s) && ThreadOK(c, th) && !th.pc.Return? && ThreadOK(c, other)
    requires ThreadInv(c, s.buckets, th) && SeenInv(c, s.buckets, s.home, other)
    requires forall d | d in s.home :: d in home' && home'[d] == s.home[d]
    ensures SeenInv(c, After(c, s.buckets, th).0, home', other)
  {
    StepKeepsEpoch(c, s.buckets, th);
  }

  /** What a step of a thread adds to what it has seen, it reads from the bucket. */
  lemma StepSees(c: Config, bs: seq<Bucket>, th: Thread)
    requires ProbeOK(c) && |bs| == c.cap && ThreadOK(c, th) && !th.pc.Return?
    ensures ThreadOK(c, After(c, bs, th).1)
    ensures var pc, pc' := th.pc, After(c, bs, th).1.pc;
            var x := Target(c, th);
            Seen(pc').Some? ==>
              && Offset(pc') == Offset(pc)
              && After(c, bs, th).0 == bs
              && var (p, t, k) := Seen(pc').value;
                 || (p == bs[x].ptr && t.None? && k.None?)
                 || (Seen(pc).Some? && p == Seen(pc).value.0
                     && (t == Seen(pc).value.1 || t == Some(bs[x].table))
                     && (k == Seen(pc).value.2 || k == Some(bs[x].key)))
  {
    StepKeepsThreadOK(c, bs, th);
    assert After(c, bs, th).0 == bs || After(c, bs, th).0[Target(c, th)] != bs[Target(c, th)];
  }

  lemma TickKeepsSeen(c: Config, owner: nat -> (nat, nat), s: State, tid: nat, i: nat)
    requires Inv2(c, owner, s) && Enabled(c, s, Tick(tid)) && Disciplined(c, owner, s, Tick(tid))
    requires WF(c, Next(c, s, Tick(tid))) && i in s.threads
    ensures var s' := Next(c, s, Tick(tid)); SeenInv(c, s'.buckets, s'.home, s'.threads[i])
  {
    var s' := Next(c, s, Tick(tid));
    var th := s.threads[tid];
    assert (s'.buckets, s'.threads[tid]) == After(c, s.buckets, th);
    TickKeepsHome(c, owner, s, tid);
    StepKeepsOtherSeen(c, s, th, s.threads[i], s'.home);
    if i == tid {
      StepSees(c, s.buckets, th);
    }
  }

  lemma NextKeepsInv2(c: Config, owner: nat -> (nat, nat), s: State, l: Label)
    requires Inv2(c, owner, s) && Enabled(c, s, l) && Disciplined(c, owner, s, l)
    ensures Inv2(c, owner, Next(c, s, l))
  {
    hide HomeInv, BucketInv, Unique, LiveInv, RivalInv, Access, PcOK;
    NextKeepsInv(c, s, l);
    if l.Tick? {
      TickKeepsHome(c, owner, s, l.tid);
      forall i | i in s.threads
        ensures var s' := Next(c, s, l); SeenInv(c, s'.buckets, s'.home, s'.threads[i])
      {
        TickKeepsSeen(c, owner, s, l.tid, i);
      }
    }
  }

  ghost predicate DisciplinedRun(c: Config, owner: nat -> (nat, nat), ss: seq<State>, ls: seq<Label>) {
    && Execution(c, ss, ls)
    && forall i | 0 <= i < |ls| :: Step(c, ss[i], ls[i], ss[i + 1]) && Disciplined(c, owner, ss[i], ls[i])
  }

  lemma {:induction false} RunInv2(c: Config, owner: nat -> (nat, nat), ss: seq<State>, ls: seq<Label>, i: nat)
    requires DisciplinedRun(c, owner, ss, ls) && i < |ss|
    ensures Inv2(c, owner, ss[i])
  {
    if i == 0 {
      InitInv(c, ss[0]);
    } else {
      RunInv2(c, owner, ss, ls, i - 1);
      assert Step(c, ss[i - 1], ls[i - 1], ss[i]);
      NextKeepsInv2(c, owner, ss[i - 1], ls[i - 1]);
    }
  }

  // ------------------------------------------------------------------ rivals that complete their insert

  /** The pointer that a step puts into a bucket as an insert in progress. */
  ghost function Claimed(c: Config, s: State, l: Label): set<nat> {
    if l.Tick? && l.tid in s.threads && WF(c, s) && s.threads[l.tid].pc.Claim? then
      var th := s.threads[l.tid];
      if s.buckets[Target(c, th)].ptr == th.pc.seen then {th.op.data} else {}
    else {}
  }

  ghost function ClaimedBefore(c: Config, ss: seq<State>, ls: seq<Label>, i: nat): set<nat>
    requires i <= |ls| <= |ss|
  {
    if i == 0 then {} else ClaimedBefore(c, ss, ls, i - 1) + Claimed(c, ss[i - 1], ls[i - 1])
  }

  /** The rest of the terms of use: under an epoch a pointer is inserted once, whether or not that insert succeeds. */
  ghost predicate InsertedOnce(c: Config, ss: seq<State>, ls: seq<Label>) {
    |ls| <= |ss| && forall i: nat | i < |ls| :: Claimed(c, ss[i], ls[i]) !! ClaimedBefore(c, ss, ls, i)
  }

  /** A bucket with an insert in progress has the key of its pointer once its table is set. */
  predicate PendingOwned(owner: nat -> (nat, nat), b: Bucket, claimed: set<nat>) {
    b.ptr.Inserting? ==> b.ptr.data in claimed && (b.table != 0 ==> owner(b.ptr.data) == (b.table, b.key))
  }

  /** What a scan has read next to the pointer of an insert in progress is right while that insert is in progress; a
      rival about to be invalidated belongs to the scan's own key. */
  predicate RivalSeen(owner: nat -> (nat, nat), b: Bucket, claimed: set<nat>, th: Thread) {
    match th.pc
    case ScanTable(_, _, seen) => seen.Inserting? ==> seen.data in claimed
    case ScanKey(_, _, seen, t) => seen.Inserting? ==> seen.data in claimed && (b.ptr == seen && t != 0 ==> t == b.table)
    case ScanAgain(_, _, seen, t, k) =>
      seen.Inserting? ==> seen.data in claimed && (b.ptr == seen && t != 0 ==> t == b.table && k == b.key)
    case Kill(_, _, seen) => seen.Inserting? ==> owner(seen.data) == (th.table, th.key)
    case _ => true
  }

  ghost predicate ThreadSees(c: Config, owner: nat -> (nat, nat), bs: seq<Bucket>, claimed: set<nat>, th: Thread)
    requires ProbeOK(c) && |bs| == c.cap && ThreadOK(c, th)
  {
    !th.pc.Return? ==> RivalSeen(owner, bs[Target(c, th)], claimed, th)
  }

  ghost predicate Inv3(c: Config, owner: nat -> (nat, nat), s: State, claimed: set<nat>) {
    && WF(c, s)
    && (forall x: nat | x < c.cap :: PendingOwned(owner, s.buckets[x], claimed))
    && (forall i | i in s.threads :: ThreadSees(c, owner, s.buckets, claimed, s.threads[i]))
  }

  /** How a step can touch a bucket with an insert in progress. */
  lemma AccessKeepsPending(c: Config, owner: nat -> (nat, nat), b: Bucket, th: Thread, claimed: set<nat>)
    requires ThreadOK(c, th) && !th.pc.Return? && DataOwned(owner, th) && Blank(b) && PendingOwned(owner, b, claimed)
    requires Owned(th.pc).Some? && Owned(th.pc) == Offset(th.pc) ==> OwnsOK(b, th)
    ensures var b' := Access(c, b, th).0;
            && PendingOwned(owner, b', if th.pc.Claim? && b.ptr == th.pc.seen then claimed + {th.op.data} else claimed)
            && (b'.ptr.Inserting? && b'.ptr != b.ptr ==> th.pc.Claim? && b.ptr == th.pc.seen && b'.ptr.data == th.op.data)
            && (b'.ptr.Inserting? && b'.ptr == b.ptr && b.table != 0 ==> b'.table == b.table && b'.key == b.key)
  {
  }

  /** What a step of a thread adds to what it has read of a rival. */
  lemma AccessSeesRival(c: Config, owner: nat -> (nat, nat), b: Bucket, th: Thread, claimed: set<nat>)
    requires ThreadOK(c, th) && ScanPc(th.pc) && PendingOwned(owner, b, claimed) && RivalSeen(owner, b, claimed, th)
    ensures var (b', pc) := AccessScan(c, b, th);
            var pc' := Skip(c, th.op, pc);
            (pc'.ScanTable? || pc'.ScanKey? || pc'.ScanAgain? || pc'.Kill? ==>
               b' == b && Offset(pc') == Offset(th.pc) && RivalSeen(owner, b, claimed, th.(pc := pc')))
  {
  }

  lemma SeesNothing(c: Config, owner: nat -> (nat, nat), b: Bucket, th: Thread, claimed: set<nat>)
    requires ThreadOK(c, th) && !ScanPc(th.pc)
    ensures var pc' := Skip(c, th.op, Access(c, b, th).1);
            !pc'.ScanTable? && !pc'.ScanKey? && !pc'.ScanAgain? && !pc'.Kill?
  {
  }

  /** The bucket another thread has read from changes only in ways that leave what it has read right. */
  lemma OtherSees(c: Config, owner: nat -> (nat, nat), b: Bucket, b': Bucket, other: Thread, claimed: set<nat>,
                  claimed': set<nat>)
    requires RivalSeen(owner, b, claimed, other) && claimed <= claimed'
    requires b'.ptr.Inserting? && b'.ptr.data in claimed ==> b'.ptr == b.ptr
    requires b'.ptr.Inserting? && b'.ptr == b.ptr && b.table != 0 ==> b'.table == b.table && b'.key == b.key
    ensures RivalSeen(owner, b', claimed', other)
  {
  }

  lemma TickKeepsInv3(c: Config, owner: nat -> (nat, nat), s: State, tid: nat, claimed: set<nat>)
    requires Inv2(c, owner, s) && Enabled(c, s, Tick(tid)) && Inv3(c, owner, s, claimed)
    requires Claimed(c, s, Tick(tid)) !! claimed && WF(c, Next(c, s, Tick(tid)))
    ensures Inv3(c, owner, Next(c, s, Tick(tid)), claimed + Claimed(c, s, Tick(tid)))
  {
    hide Access, Skip, ThreadOK, PcOK, RivalSeen, PendingOwned, HomeInv, SeenInv, DataOwned, LiveInv, RivalInv, BucketInv, Unique;
    var th, s', claimed' := s.threads[tid], Next(c, s, Tick(tid)), claimed + Claimed(c, s, Tick(tid));
    var x := Target(c, th);
    var b, b' := s.buckets[x], s'.buckets[x];
    assert ThreadInv(c, s.buckets, th) && DataOwned(owner, th) && PendingOwned(owner, b, claimed);
    assert Blank(b) by { IsBlank(c, s, x); }
    TargetOwned(c, th);
    AccessKeepsPending(c, owner, b, th, claimed);
    ClaimInserts(c, th);
    assert claimed' == if th.pc.Claim? && b.ptr == th.pc.seen then claimed + {th.op.data} else claimed;
    forall y: nat | y < c.cap ensures PendingOwned(owner, s'.buckets[y], claimed') {
      if y != x {
        MoreClaimed(owner, s.buckets[y], claimed, claimed');
      }
    }
    forall i | i in s'.threads ensures ThreadSees(c, owner, s'.buckets, claimed', s'.threads[i]) {
      if i == tid {
        OwnSees(c, owner, s, tid, claimed);
      } else {
        assert s'.threads[i] == s.threads[i] && ThreadSees(c, owner, s.buckets, claimed, s.threads[i]);
        if !s.threads[i].pc.Return? {
          var y := Target(c, s.threads[i]);
          OtherSees(c, owner, s.buckets[y], s'.buckets[y], s.threads[i], claimed, claimed');
        }
      }
    }
  }

  lemma ClaimInserts(c: Config, th: Thread)
    requires ThreadOK(c, th)
    ensures th.pc.Claim? ==> th.op.Insert?
  {
  }

  lemma IsBlank(c: Config, s: State, x: nat)
    requires Inv(c, s) && x < c.cap
    ensures Blank(s.buckets[x])
  {
    assert BucketInv(c, s.buckets, x);
  }

  lemma MoreClaimed(owner: nat -> (nat, nat), b: Bucket, claimed: set<nat>, claimed': set<nat>)
    requires PendingOwned(owner, b, claimed) && claimed <= claimed'
    ensures PendingOwned(owner, b, claimed')
  {
  }

  lemma TargetOwned(c: Config, th: Thread)
    requires ProbeOK(c) && ThreadOK(c, th) && !th.pc.Return?
    ensures Owned(th.pc).Some? && Owned(th.pc) == Offset(th.pc) ==>
              c.probe(th.table, th.key, Owned(th.pc).value) == Target(c, th)
  {
  }

  lemma OwnSees(c: Config, owner: nat -> (nat, nat), s: State, tid: nat, claimed: set<nat>)
    requires Enabled(c, s, Tick(tid)) && Inv3(c, owner, s, claimed) && WF(c, Next(c, s, Tick(tid)))
    ensures var s' := Next(c, s, Tick(tid));
            ThreadSees(c, owner, s'.buckets, claimed + Claimed(c, s, Tick(tid)), s'.threads[tid])
  {
    hide AccessScan, AccessInsert, AccessFind, AccessWipe, AccessActual, PcOK, PendingOwned, Skip;
    var th := s.threads[tid];
    var b := s.buckets[Target(c, th)];
    assert PendingOwned(owner, b, claimed) && ThreadSees(c, owner, s.buckets, claimed, th);
    if ScanPc(th.pc) {
      AccessSeesRival(c, owner, b, th, claimed);
    } else {
      SeesNothing(c, owner, b, th, claimed);
    }
  }

  lemma NextKeepsInv3(c: Config, owner: nat -> (nat, nat), s: State, l: Label, claimed: set<nat>)
    requires Inv2(c, owner, s) && Enabled(c, s, l) && Inv3(c, owner, s, claimed) && Claimed(c, s, l) !! claimed
    ensures Inv3(c, owner, Next(c, s, l), claimed + Claimed(c, s, l))
  {
    NextKeepsInv(c, s, l);
    if l.Tick? {
      TickKeepsInv3(c, owner, s, l.tid, claimed);
    } else {
      assert claimed + Claimed(c, s, l) == claimed;
    }
  }

  lemma {:induction false} RunInv3(c: Config, owner: nat -> (nat, nat), ss: seq<State>, ls: seq<Label>, i: nat)
    requires DisciplinedRun(c, owner, ss, ls) && InsertedOnce(c, ss, ls) && i < |ss|
    ensures i <= |ls| && Inv3(c, owner, ss[i], ClaimedBefore(c, ss, ls, i))
  {
    hide Inv2, Inv3, Disciplined, Next;
    if i == 0 {
      InitInv3(c, owner, ss[0]);
    } else {
      RunInv3(c, owner, ss, ls, i - 1);
      RunInv2(c, owner, ss, ls, i - 1);
      assert Step(c, ss[i - 1], ls[i - 1], ss[i]);
      NextKeepsInv3(c, owner, ss[i - 1], ls[i - 1], ClaimedBefore(c, ss, ls, i - 1));
    }
  }

  lemma InitInv3(c: Config, owner: nat -> (nat, nat), s: State)
    requires Init(c, s)
    ensures Inv3(c, owner, s, {})
  {
  }

  /** A pointer handed to a caller -- by get, or as the rival of a failed insert, update or erase -- is the live
      pointer of exactly the caller's <table, key> pair at the access that produced it: the second pointer load, or the
      failed swap that was to invalidate a rival insert.  (Wiping a bucket passes on a pointer found before.) */
  lemma ReturnedPointerIsLive(c: Config, owner: nat -> (nat, nat), ss: seq<State>, ls: seq<Label>, i: nat, tid: nat)
    requires DisciplinedRun(c, owner, ss, ls) && i < |ls| && ls[i] == Tick(tid)
    requires tid in ss[i].threads && tid in ss[i + 1].threads && !WipePc(ss[i].threads[tid].pc)
    requires ss[i].threads[tid].pc.Kill? ==> InsertedOnce(c, ss, ls)
    requires var pc' := ss[i + 1].threads[tid].pc;
             (pc'.Return? && pc'.res.ptr.Some?) || (pc'.Abort? && pc'.actual.Some?)
    ensures var th, pc' := ss[i].threads[tid], ss[i + 1].threads[tid].pc;
            var p := if pc'.Return? then pc'.res.ptr.value else pc'.actual.value;
            && WF(c, ss[i]) && !th.pc.Return?
            && var b := ss[i].buckets[Target(c, th)];
               b.ptr == Live(p) && b.table == th.table && b.key == th.key
  {
    hide Inv2, Inv3, Disciplined, InsertedOnce, Next;
    RunInv2(c, owner, ss, ls, i);
    assert Step(c, ss[i], ls[i], ss[i + 1]) by { RunSteps(c, owner, ss, ls, i); }
    if ss[i].threads[tid].pc.Kill? {
      RunInv3(c, owner, ss, ls, i);
      KillFindsOwn(c, owner, ss[i], tid, ClaimedBefore(c, ss, ls, i));
    } else {
      SeenIsOwn(c, owner, ss[i], tid);
    }
  }

  lemma RunSteps(c: Config, owner: nat -> (nat, nat), ss: seq<State>, ls: seq<Label>, i: nat)
    requires DisciplinedRun(c, owner, ss, ls) && i < |ls|
    ensures Step(c, ss[i], ls[i], ss[i + 1])
  {
  }

  /** The pointer that a step hands to the caller. */
  function Handed(pc: Pc): Option<nat> {
    if pc.Return? then pc.res.ptr else if pc.Abort? then pc.actual else None
  }

  lemma KillFindsOwn(c: Config, owner: nat -> (nat, nat), s: State, tid: nat, claimed: set<nat>)
    requires Inv2(c, owner, s) && Inv3(c, owner, s, claimed) && tid in s.threads && s.threads[tid].pc.Kill?
    ensures var th := s.threads[tid];
            var b, pc' := s.buckets[Target(c, th)], Next(c, s, Tick(tid)).threads[tid].pc;
            Handed(pc').Some? ==> b.ptr == Live(Handed(pc').value) && b.table == th.table && b.key == th.key
  {
    hide Inv, SeenInv, DataOwned, PendingOwned;
    assert WF(c, s) && ThreadSees(c, owner, s.buckets, claimed, s.threads[tid]);
  }

  /** Other steps hand out only a live pointer loaded twice, with the thread's own key read in between. */
  lemma HandedIsSeen(c: Config, b: Bucket, th: Thread)
    requires ThreadOK(c, th) && !th.pc.Kill? && !th.pc.Return? && !WipePc(th.pc)
    ensures var pc' := Skip(c, th.op, Access(c, b, th).1);
            Handed(pc').Some? ==>
              b.ptr == Live(Handed(pc').value) && Seen(th.pc) == Some((b.ptr, Some(th.table), Some(th.key)))
  {
  }

  lemma SeenIsOwn(c: Config, owner: nat -> (nat, nat), s: State, tid: nat)
    requires Inv2(c, owner, s) && tid in s.threads
    requires !s.threads[tid].pc.Kill? && !s.threads[tid].pc.Return? && !WipePc(s.threads[tid].pc)
    ensures var th := s.threads[tid];
            var b, pc' := s.buckets[Target(c, th)], Next(c, s, Tick(tid)).threads[tid].pc;
            Handed(pc').Some? ==> b.ptr == Live(Handed(pc').value) && b.table == th.table && b.key == th.key
  {
    hide DataOwned, LiveInv, RivalInv, BucketInv, Unique, ThreadInv, PcOK, Access, Skip, Handed, Seen;
    var th := s.threads[tid];
    assert SeenInv(c, s.buckets, s.home, th);
    HandedIsSeen(c, s.buckets[Target(c, th)], th);
  }

  predicate Absent(bs: seq<Bucket>, table: nat, key: nat) {
    forall y | 0 <= y < |bs| :: !Holds(bs[y], table, key)
  }

  /** The thread goes on as after a successful swap. */
  predicate Succeeded(pc: Pc) {
    (pc.Return? || pc.WipeTable?) && pc.res.ok
  }

  /** A successful update or erase acts on the one bucket that holds its own key, also if it exchanges a pointer for
      itself. */
  lemma SwapHitsOwnKey(c: Config, owner: nat -> (nat, nat), ss: seq<State>, ls: seq<Label>, i: nat, tid: nat)
    requires DisciplinedRun(c, owner, ss, ls) && i < |ls| && ls[i] == Tick(tid)
    requires tid in ss[i].threads && ss[i].threads[tid].pc.Swap?
    requires tid in ss[i + 1].threads && Succeeded(ss[i + 1].threads[tid].pc)
    ensures var th := ss[i].threads[tid];
            && WF(c, ss[i])
            && var x := Target(c, th);
               && Holds(ss[i].buckets[x], th.table, th.key) && ss[i].buckets[x].ptr == Live(th.op.expected)
               && (th.op.Update? ==> ss[i + 1].buckets == ss[i].buckets[x := ss[i].buckets[x].(ptr := Live(th.op.desired))])
               && (th.op.Erase? ==> Absent(ss[i + 1].buckets, th.table, th.key))
  {
    RunInv2(c, owner, ss, ls, i);
    assert Step(c, ss[i], ls[i], ss[i + 1]);
  }
}
