/**
 The version list of one key in the log-structured store (logstructured/VersionRecordIterator.cpp,
 logstructured/Table.cpp, logstructured/GcScanProcessor.cpp): a marked list of records below a head cell.

 A step is one successful compare-and-swap (or one log seal) of any thread.  A compare-and-swap on a record compares
 all its mutable data, so its guard can be read off the state in which it succeeds.  Only the swap of the head cell
 validates less than the thread has checked before; such a thread is kept in the state as `Armed`.
 */
module VersionChain {
  import opened Common

  /** The version in which a record expires; `Active` is the source's ACTIVE_VERSION. */
  datatype To = Active | At(version: nat)

  /** A record: immutable version, kind and data, and the mutable data of MutableRecordData. */
  datatype Rec = Rec(version: nat, deletion: bool, data: seq<int>, validTo: To, next: Option<nat>, invalid: bool,
                     sealed: bool)

  datatype Local =
    | Armed(elem: nat, cur: Option<nat>)
    | Expiring(elem: nat, cursor: nat)
    | Sealing(elem: nat)
    | Reactivating(version: nat, cursor: nat)

  /** Records are named by their position in the log.  `live` are the versions of running transactions, `over` those
      of finished ones, `low` is the lowest active version known to the garbage collection. */
  datatype State = State(recs: seq<Rec>, head: Option<nat>, threads: map<nat, Local>,
                         live: set<nat>, over: set<nat>, low: nat)

  /** `sees(v, u)`: version u is in the read set of the transaction with version v. */
  type Snapshots = (nat, nat) -> bool

  // ------------------------------------------------------------------ the list

  predicate Link(recs: seq<Rec>, i: nat)
    requires i < |recs|
  {
    recs[i].next.Some? ==>
      var n := recs[i].next.value;
      && n < |recs|
      && (recs[n].version < recs[i].version || (recs[n].version == recs[i].version && recs[i].invalid && i < n))
  }

  /** Versions never increase along the next pointers, and stay equal only from an invalid record to a newer copy. */
  predicate Ranked(recs: seq<Rec>) {
    forall i | 0 <= i < |recs| :: Link(recs, i)
  }

  predicate In(recs: seq<Rec>, i: Option<nat>) {
    i.Some? ==> i.value < |recs|
  }

  /** The valid records met on the walk from `i`, newest first. */
  function Chain(recs: seq<Rec>, i: Option<nat>): (c: seq<nat>)
    requires Ranked(recs) && In(recs, i)
    decreases if i.Some? then recs[i.value].version + 1 else 0, if i.Some? then |recs| - i.value else 0
  {
    if i.None? then []
    else
      assert Link(recs, i.value);
      var rest := Chain(recs, recs[i.value].next);
      if recs[i.value].invalid then rest else [i.value] + rest
  }

  /** Valid records, none of a version above `top`. */
  predicate Bounded(recs: seq<Rec>, c: seq<nat>, top: int) {
    forall k | 0 <= k < |c| :: c[k] < |recs| && !recs[c[k]].invalid && recs[c[k]].version <= top
  }

  predicate Descending(recs: seq<Rec>, c: seq<nat>)
    requires forall k | 0 <= k < |c| :: c[k] < |recs|
  {
    forall j, k | 0 <= j < k < |c| :: recs[c[k]].version < recs[c[j]].version
  }

  function Top(recs: seq<Rec>, i: Option<nat>): int
    requires In(recs, i)
  {
    if i.Some? then recs[i.value].version else -1
  }

  /** The walk meets valid records of versions not above its start, in strictly decreasing order of versions. */
  lemma {:induction false} ChainSorted(recs: seq<Rec>, i: Option<nat>)
    requires Ranked(recs) && In(recs, i)
    ensures Bounded(recs, Chain(recs, i), Top(recs, i)) && Descending(recs, Chain(recs, i))
    ensures i.Some? && !recs[i.value].invalid ==> Chain(recs, i) != [] && Chain(recs, i)[0] == i.value
    decreases if i.Some? then recs[i.value].version + 1 else 0, if i.Some? then |recs| - i.value else 0
  {
    if i.Some? {
      assert Link(recs, i.value);
      var rest := Chain(recs, recs[i.value].next);
      ChainSorted(recs, recs[i.value].next);
      if !recs[i.value].invalid {
        var c := [i.value] + rest;
        forall k | 0 <= k < |c|
          ensures c[k] < |recs| && !recs[c[k]].invalid && recs[c[k]].version <= recs[i.value].version
        {
          assert k > 0 ==> c[k] == rest[k - 1];
        }
        forall j, k | 0 <= j < k < |c| ensures recs[c[k]].version < recs[c[j]].version {
          assert c[k] == rest[k - 1] && (j > 0 ==> c[j] == rest[j - 1]);
        }
      }
    }
  }

  function Versions(recs: seq<Rec>, c: seq<nat>): (v: seq<nat>)
    requires forall k | 0 <= k < |c| :: c[k] < |recs|
    ensures |v| == |c|
  {
    seq(|c|, k requires 0 <= k < |c| => recs[c[k]].version)
  }

  // ------------------------------------------------------------------ how one change of a record changes the walk

  predicate SameLinks(recs: seq<Rec>, recs': seq<Rec>) {
    && |recs| <= |recs'|
    && forall i | 0 <= i < |recs| :: recs'[i].next == recs[i].next && recs'[i].invalid == recs[i].invalid
                                     && recs'[i].version == recs[i].version
  }

  lemma {:induction false} ChainSameLinks(recs: seq<Rec>, recs': seq<Rec>, i: Option<nat>)
    requires Ranked(recs) && Ranked(recs') && In(recs, i) && SameLinks(recs, recs')
    ensures Chain(recs', i) == Chain(recs, i)
    decreases if i.Some? then recs[i.value].version + 1 else 0, if i.Some? then |recs| - i.value else 0
  {
    if i.Some? {
      assert Link(recs, i.value);
      ChainSameLinks(recs, recs', recs[i.value].next);
    }
  }

  function Put(recs: seq<Rec>, i: nat, r: Rec): seq<Rec>
    requires i < |recs|
  {
    recs[i := r]
  }

  /** Skipping an invalid successor. */
  function Unlink(recs: seq<Rec>, p: nat): seq<Rec>
    requires p < |recs| && recs[p].next.Some? && recs[p].next.value < |recs|
  {
    recs[p := recs[p].(next := recs[recs[p].next.value].next)]
  }

  lemma UnlinkRanked(recs: seq<Rec>, p: nat)
    requires Ranked(recs) && p < |recs| && recs[p].next.Some? && recs[p].next.value < |recs|
    requires !recs[p].invalid
    ensures Ranked(Unlink(recs, p))
  {
    var recs' := Unlink(recs, p);
    forall i | 0 <= i < |recs'| ensures Link(recs', i) {
      assert Link(recs, i) && Link(recs, p) && Link(recs, recs[p].next.value);
    }
  }

  lemma {:induction false} ChainUnlink(recs: seq<Rec>, p: nat, i: Option<nat>)
    requires Ranked(recs) && p < |recs| && recs[p].next.Some? && recs[p].next.value < |recs| && In(recs, i)
    requires !recs[p].invalid && recs[recs[p].next.value].invalid
    ensures Ranked(Unlink(recs, p)) && Chain(Unlink(recs, p), i) == Chain(recs, i)
    decreases if i.Some? then recs[i.value].version + 1 else 0, if i.Some? then |recs| - i.value else 0
  {
    UnlinkRanked(recs, p);
    if i.Some? {
      assert Link(recs, i.value);
      if i.value == p {
        var n := recs[p].next.value;
        assert Link(recs, n);
        ChainUnlink(recs, p, recs[n].next);
        assert Chain(recs, Some(n)) == Chain(recs, recs[n].next);
      } else {
        ChainUnlink(recs, p, recs[i.value].next);
      }
    }
  }

  /** The record marked invalid; its next pointer stays. */
  function Mark(recs: seq<Rec>, x: nat): seq<Rec>
    requires x < |recs|
  {
    recs[x := recs[x].(invalid := true)]
  }

  function Without(c: seq<nat>, x: nat): seq<nat> {
    if c == [] then [] else if c[0] == x then Without(c[1..], x) else [c[0]] + Without(c[1..], x)
  }

  lemma {:induction false} ChainMark(recs: seq<Rec>, x: nat, i: Option<nat>)
    requires Ranked(recs) && x < |recs| && In(recs, i)
    ensures Ranked(Mark(recs, x)) && Chain(Mark(recs, x), i) == Without(Chain(recs, i), x)
    decreases if i.Some? then recs[i.value].version + 1 else 0, if i.Some? then |recs| - i.value else 0
  {
    forall k | 0 <= k < |recs| ensures Link(Mark(recs, x), k) {
      assert Link(recs, k);
    }
    if i.Some? {
      assert Link(recs, i.value);
      ChainMark(recs, x, recs[i.value].next);
      var c := Chain(recs, i);
      if !recs[i.value].invalid {
        assert c[1..] == Chain(recs, recs[i.value].next);
      }
    }
  }

  /** The record marked invalid and the list cut behind it. */
  function Cut(recs: seq<Rec>, x: nat): seq<Rec>
    requires x < |recs|
  {
    recs[x := recs[x].(invalid := true, next := None)]
  }

  function Before(c: seq<nat>, x: nat): seq<nat> {
    if c == [] || c[0] == x then [] else [c[0]] + Before(c[1..], x)
  }

  lemma {:induction false} ChainCut(recs: seq<Rec>, x: nat, i: Option<nat>)
    requires Ranked(recs) && x < |recs| && In(recs, i) && !recs[x].invalid
    ensures Ranked(Cut(recs, x)) && Chain(Cut(recs, x), i) == Before(Chain(recs, i), x)
    decreases if i.Some? then recs[i.value].version + 1 else 0, if i.Some? then |recs| - i.value else 0
  {
    forall k | 0 <= k < |recs| ensures Link(Cut(recs, x), k) {
      assert Link(recs, k);
    }
    if i.Some? {
      assert Link(recs, i.value);
      ChainCut(recs, x, recs[i.value].next);
      var c := Chain(recs, i);
      if !recs[i.value].invalid {
        assert c[1..] == Chain(recs, recs[i.value].next);
      }
      if i.value == x {
        assert Chain(Cut(recs, x), i) == [];
      }
    }
  }

  /** The record replaced by a copy appended to the log, which takes over its mutable data. */
  function Swap(recs: seq<Rec>, x: nat, deletion: bool, data: seq<int>): seq<Rec>
    requires x < |recs|
  {
    recs[x := recs[x].(invalid := true, next := Some(|recs|))]
      + [Rec(recs[x].version, deletion, data, recs[x].validTo, recs[x].next, false, false)]
  }

  function Renamed(c: seq<nat>, x: nat, y: nat): (r: seq<nat>)
    ensures |r| == |c|
  {
    seq(|c|, k requires 0 <= k < |c| => if c[k] == x then y else c[k])
  }

  lemma RenamedKeeps(c: seq<nat>, x: nat, y: nat, r: nat)
    requires r in c
    ensures r == x || r in Renamed(c, x, y)
  {
    var k :| 0 <= k < |c| && c[k] == r;
    assert Renamed(c, x, y)[k] == if r == x then y else r;
  }

  lemma SwapRanked(recs: seq<Rec>, x: nat, deletion: bool, data: seq<int>)
    requires Ranked(recs) && x < |recs| && !recs[x].invalid
    ensures Ranked(Swap(recs, x, deletion, data))
  {
    var recs' := Swap(recs, x, deletion, data);
    forall k | 0 <= k < |recs'| ensures Link(recs', k) {
      assert Link(recs, x);
      if k < |recs| {
        assert Link(recs, k);
      }
    }
  }

  lemma {:induction false} ChainSwap(recs: seq<Rec>, x: nat, deletion: bool, data: seq<int>, i: Option<nat>)
    requires Ranked(recs) && x < |recs| && In(recs, i) && !recs[x].invalid
    ensures var recs' := Swap(recs, x, deletion, data);
            Ranked(recs') && Chain(recs', i) == Renamed(Chain(recs, i), x, |recs|)
    decreases if i.Some? then recs[i.value].version + 1 else 0, if i.Some? then |recs| - i.value else 0
  {
    SwapRanked(recs, x, deletion, data);
    var recs' := Swap(recs, x, deletion, data);
    if i.Some? {
      assert Link(recs, i.value) && Link(recs', i.value);
      var c, rest := Chain(recs, i), Chain(recs, recs[i.value].next);
      ChainSwap(recs, x, deletion, data, recs[i.value].next);
      if i.value == x {
        assert Link(recs', |recs|);
        assert c == [x] + rest;
        assert Chain(recs', Some(|recs|)) == [|recs|] + Chain(recs', recs[x].next);
        assert Renamed(c, x, |recs|) == [|recs|] + Renamed(rest, x, |recs|);
      } else if recs[i.value].invalid {
        assert c == rest;
      } else {
        assert c == [i.value] + rest;
        assert Renamed(c, x, |recs|) == [i.value] + Renamed(rest, x, |recs|);
      }
    }
  }

  // ------------------------------------------------------------------ snapshot reads

  /** The result of `get` on a list of valid records: the first record in the read set decides. */
  function Read(recs: seq<Rec>, c: seq<nat>, snapshot: nat -> bool, newest: bool): Outcome
    requires forall k | 0 <= k < |c| :: c[k] < |recs|
  {
    if c == [] then Missing(newest)
    else if !snapshot(recs[c[0]].version) then Read(recs, c[1..], snapshot, false)
    else if recs[c[0]].deletion then Missing(newest)
    else Tuple(recs[c[0]].data, recs[c[0]].version, newest)
  }

  /** The first record that the snapshot reads decides, and the error code says whether it, or nothing, was the newest. */
  lemma {:induction false} ReadIsFirst(recs: seq<Rec>, c: seq<nat>, snapshot: nat -> bool, newest: bool, k: nat)
    requires k <= |c| && (forall i | 0 <= i < |c| :: c[i] < |recs|)
    requires (forall i | 0 <= i < k :: !snapshot(recs[c[i]].version)) && (k < |c| ==> snapshot(recs[c[k]].version))
    ensures var flag := newest && k == 0;
            Read(recs, c, snapshot, newest) ==
              if k < |c| && !recs[c[k]].deletion then Tuple(recs[c[k]].data, recs[c[k]].version, flag)
              else if flag then NotFound else NotInSnapshot
  {
    if k > 0 {
      ReadIsFirst(recs, c[1..], snapshot, false, k - 1);
    }
  }

  /** The lookup loop: walks the raw list and passes over invalid records without counting them as newer versions. */
  method Get(recs: seq<Rec>, head: Option<nat>, snapshot: nat -> bool) returns (o: Outcome)
    requires Ranked(recs) && In(recs, head)
    ensures forall k | 0 <= k < |Chain(recs, head)| :: Chain(recs, head)[k] < |recs|
    ensures o == Read(recs, Chain(recs, head), snapshot, true)
  {
    ChainSorted(recs, head);
    var cur, newest := head, true;
    while cur.Some?
      invariant In(recs, cur)
      invariant forall k | 0 <= k < |Chain(recs, cur)| :: Chain(recs, cur)[k] < |recs|
      invariant Read(recs, Chain(recs, cur), snapshot, newest) == Read(recs, Chain(recs, head), snapshot, true)
      decreases if cur.Some? then recs[cur.value].version + 1 else 0, if cur.Some? then |recs| - cur.value else 0
    {
      var r := recs[cur.value];
      assert Link(recs, cur.value);
      ChainSorted(recs, r.next);
      if !r.invalid {
        assert Chain(recs, cur)[1..] == Chain(recs, r.next);
        if snapshot(r.version) {
          if r.deletion {
            return Missing(newest);
          }
          return Tuple(r.data, r.version, newest);
        }
        newest := false;
      }
      cur := r.next;
    }
    return Missing(newest);
  }

  // ------------------------------------------------------------------ more on walks

  lemma {:induction false} ChainTail(recs: seq<Rec>, i: Option<nat>, k: nat)
    requires Ranked(recs) && In(recs, i) && k < |Chain(recs, i)|
    ensures Chain(recs, i)[k] < |recs| && Chain(recs, i)[k..] == Chain(recs, Some(Chain(recs, i)[k]))
    ensures !recs[Chain(recs, i)[k]].invalid
    ensures Link(recs, Chain(recs, i)[k])
    ensures Chain(recs, i)[k + 1..] == Chain(recs, recs[Chain(recs, i)[k]].next)
    decreases if i.Some? then recs[i.value].version + 1 else 0, if i.Some? then |recs| - i.value else 0
  {
    assert Link(recs, i.value);
    var c, rest := Chain(recs, i), Chain(recs, recs[i.value].next);
    if recs[i.value].invalid {
      ChainTail(recs, recs[i.value].next, k);
    } else if k == 0 {
      assert c[0..] == c && c[1..] == rest;
    } else {
      ChainTail(recs, recs[i.value].next, k - 1);
      assert c[k] == rest[k - 1] && c[k..] == rest[k - 1..] && c[k + 1..] == rest[k..];
    }
  }

  predicate Untouched(recs: seq<Rec>, x: nat) {
    forall i | 0 <= i < |recs| :: recs[i].next != Some(x)
  }

  /** A record nobody points to can be changed without affecting any walk that does not start there. */
  lemma {:induction false} ChainFresh(recs: seq<Rec>, x: nat, r: Rec, i: Option<nat>)
    requires Ranked(recs) && x < |recs| && Untouched(recs, x) && In(recs, i) && i != Some(x)
    requires Ranked(Put(recs, x, r))
    ensures Chain(Put(recs, x, r), i) == Chain(recs, i)
    decreases if i.Some? then recs[i.value].version + 1 else 0, if i.Some? then |recs| - i.value else 0
  {
    if i.Some? {
      assert Link(recs, i.value);
      ChainFresh(recs, x, r, recs[i.value].next);
    }
  }

  lemma {:induction false} WithoutAbsent(c: seq<nat>, x: nat)
    requires x !in c
    ensures Without(c, x) == c
  {
    if c != [] {
      WithoutAbsent(c[1..], x);
    }
  }

  lemma {:induction false} BeforePrefix(c: seq<nat>, x: nat)
    ensures Before(c, x) <= c && x !in Before(c, x)
    ensures x in c ==> |Before(c, x)| < |c| && c[|Before(c, x)|] == x
    ensures x !in c ==> Before(c, x) == c
  {
    if c != [] && c[0] != x {
      BeforePrefix(c[1..], x);
    }
  }

  // ------------------------------------------------------------------ the steps

  /** What a transaction does to the key; reverts are steps of their own. */
  datatype Op = Insert | Update | Delete

  datatype Label =
    // transactions and the version manager
    | Start(version: nat)
    | Finish(version: nat)
    | Advance(bound: nat)
    // insert, update and remove of a version above the current one
    | Arm(tid: nat, version: nat, op: Op, data: seq<int>, below: Option<nat>)
    | Fire(tid: nat)
    | Disarm(tid: nat)
    | Expire(tid: nat)
    | Seal(tid: nat)
    // writes and reverts of a transaction's own version
    | Replace(tid: nat, version: nat, cur: nat, op: Op, data: seq<int>)
    | Remove(tid: nat, version: nat, cur: nat)
    | Reactivate(tid: nat)
    // clean-up by any iterator
    | UnlinkHead
    | UnlinkNext(prev: nat)
    // garbage collection
    | Recycle(tid: nat, cur: nat)
    | GcExpired(rec: nat, bound: nat)
    | GcDeletion(rec: nat, bound: nat)

  /** A valid, sealed record that no transaction has set to expire. */
  predicate Writable(s: State, cur: nat) {
    cur < |s.recs| && !s.recs[cur].invalid && s.recs[cur].sealed && s.recs[cur].validTo.Active?
  }

  /** Inserts need a deletion below them, updates and deletes need data. */
  predicate KindOK(op: Op, below: bool) {
    op.Insert? <==> below
  }

  function ThreadVersion(s: State, l: Local): nat
    requires l.Reactivating? || l.elem < |s.recs|
  {
    if l.Reactivating? then l.version else s.recs[l.elem].version
  }

  predicate ThreadOK(s: State, l: Local) {
    match l
    case Armed(elem, cur) => elem < |s.recs| && In(s.recs, cur)
    case Expiring(elem, cursor) => elem < |s.recs| && cursor < |s.recs|
    case Sealing(elem) => elem < |s.recs|
    case Reactivating(_, cursor) => cursor < |s.recs|
  }

  predicate WF(s: State) {
    && Ranked(s.recs)
    && In(s.recs, s.head)
    && (forall t | t in s.threads :: ThreadOK(s, s.threads[t]))
  }

  ghost predicate Enabled(sees: Snapshots, s: State, l: Label)
    requires WF(s)
  {
    match l
    case Start(v) =>
      && v !in s.live && v !in s.over
      && (forall u | sees(v, u) && u != v :: u in s.over)
      && (forall u | 0 <= u <= s.low :: sees(v, u))
    case Finish(v) =>
      v in s.live && forall t | t in s.threads && !s.threads[t].Sealing? :: ThreadVersion(s, s.threads[t]) != v
    case Advance(b) =>
      && s.low <= b
      && (forall u | 0 <= u <= b :: u in s.over)
      && (forall v, u | v in s.live && 0 <= u <= b :: sees(v, u))
    case Arm(t, v, op, _, cur) =>
      && t !in s.threads && v in s.live
      && (cur.None? ==> op.Insert?)
      && (cur.Some? ==>
            && Writable(s, cur.value)
            && sees(v, s.recs[cur.value].version) && s.recs[cur.value].version != v
            && KindOK(op, s.recs[cur.value].deletion))
    case Fire(t) => t in s.threads && s.threads[t].Armed? && s.head == s.threads[t].cur
    case Disarm(t) => t in s.threads && s.threads[t].Armed?
    case Expire(t) => t in s.threads && s.threads[t].Expiring?
    case Seal(t) => t in s.threads && s.threads[t].Sealing?
    case Replace(t, v, cur, op, _) =>
      && t !in s.threads && v in s.live
      && Writable(s, cur) && s.recs[cur].version == v && KindOK(op, s.recs[cur].deletion)
    case Remove(t, v, cur) =>
      t !in s.threads && v in s.live && Writable(s, cur) && s.recs[cur].version == v
    case Reactivate(t) => t in s.threads && s.threads[t].Reactivating?
    case UnlinkHead => s.head.Some? && s.recs[s.head.value].invalid
    case UnlinkNext(p) =>
      && p < |s.recs| && !s.recs[p].invalid && s.recs[p].next.Some?
      && s.recs[p].next.value < |s.recs| && s.recs[s.recs[p].next.value].invalid
    case Recycle(t, cur) =>
      t !in s.threads && cur < |s.recs| && !s.recs[cur].invalid && s.recs[cur].sealed
    case GcExpired(x, b) =>
      && x < |s.recs| && !s.recs[x].invalid && s.recs[x].sealed && b <= s.low
      && s.recs[x].validTo.At? && s.recs[x].validTo.version <= b
    case GcDeletion(x, b) =>
      && x < |s.recs| && !s.recs[x].invalid && s.recs[x].sealed && b <= s.low
      && s.recs[x].deletion && s.recs[x].version <= b
  }

  /** expireNextElement and reactivateNextElement: pass over an invalid record, or set the expiry of a valid one. */
  function SetTo(recs: seq<Rec>, cursor: nat, to: To): seq<Rec>
    requires cursor < |recs|
  {
    if recs[cursor].invalid then recs else recs[cursor := recs[cursor].(validTo := to)]
  }

  function Next(s: State, l: Label): State
    requires WF(s)
    requires l.Arm? || l.Replace? || l.Remove? || l.Recycle? ==> l.tid !in s.threads
    requires l.Replace? || l.Remove? || l.Recycle? ==> l.cur < |s.recs|
    requires l.GcExpired? || l.GcDeletion? ==> l.rec < |s.recs|
    requires l.Fire? || l.Disarm? ==> l.tid in s.threads && s.threads[l.tid].Armed?
    requires l.Expire? ==> l.tid in s.threads && s.threads[l.tid].Expiring?
    requires l.Seal? ==> l.tid in s.threads && s.threads[l.tid].Sealing?
    requires l.Reactivate? ==> l.tid in s.threads && s.threads[l.tid].Reactivating?
    requires l.UnlinkHead? ==> s.head.Some?
    requires l.UnlinkNext? ==> l.prev < |s.recs| && s.recs[l.prev].next.Some? && s.recs[l.prev].next.value < |s.recs|
  {
    match l
    case Start(v) => s.(live := s.live + {v})
    case Finish(v) => s.(live := s.live - {v}, over := s.over + {v})
    case Advance(b) => s.(low := b)
    case Arm(t, v, op, data, cur) =>
      s.(recs := s.recs + [Rec(v, op.Delete?, data, Active, None, false, false)],
         threads := s.threads[t := Armed(|s.recs|, cur)])
    case Fire(t) =>
      var th := s.threads[t];
      s.(recs := Put(s.recs, th.elem, s.recs[th.elem].(next := th.cur)),
         head := Some(th.elem),
         threads := s.threads[t := if th.cur.Some? then Expiring(th.elem, th.cur.value) else Sealing(th.elem)])
    case Disarm(t) =>
      var e := s.threads[t].elem;
      s.(recs := Put(s.recs, e, s.recs[e].(invalid := true, sealed := true)), threads := s.threads - {t})
    case Expire(t) =>
      var th := s.threads[t];
      s.(recs := SetTo(s.recs, th.cursor, At(s.recs[th.elem].version)),
         threads := s.threads[t :=
           if s.recs[th.cursor].invalid && s.recs[th.cursor].next.Some?
           then Expiring(th.elem, s.recs[th.cursor].next.value) else Sealing(th.elem)])
    case Seal(t) =>
      var e := s.threads[t].elem;
      s.(recs := Put(s.recs, e, s.recs[e].(sealed := true)), threads := s.threads - {t})
    case Replace(t, v, cur, op, data) =>
      s.(recs := Swap(s.recs, cur, op.Delete?, data), threads := s.threads[t := Sealing(|s.recs|)])
    case Remove(t, v, cur) =>
      s.(recs := Mark(s.recs, cur),
         threads := if s.recs[cur].next.Some? then s.threads[t := Reactivating(v, s.recs[cur].next.value)]
                    else s.threads)
    case Reactivate(t) =>
      var th := s.threads[t];
      s.(recs := SetTo(s.recs, th.cursor, Active),
         threads :=
           if s.recs[th.cursor].invalid && s.recs[th.cursor].next.Some?
           then s.threads[t := Reactivating(th.version, s.recs[th.cursor].next.value)] else s.threads - {t})
    case UnlinkHead => s.(head := s.recs[s.head.value].next)
    case UnlinkNext(p) => s.(recs := Unlink(s.recs, p))
    case Recycle(t, cur) =>
      s.(recs := Swap(s.recs, cur, s.recs[cur].deletion, s.recs[cur].data), threads := s.threads[t := Sealing(|s.recs|)])
    case GcExpired(x, _) => s.(recs := Cut(s.recs, x))
    case GcDeletion(x, _) => s.(recs := Cut(s.recs, x))
  }

  // ------------------------------------------------------------------ the invariant

  /** A read set holds no version above its own. */
  ghost predicate ReadsOK(sees: Snapshots) {
    forall v, u | sees(v, u) :: u <= v
  }

  function List(s: State): seq<nat>
    requires WF(s)
  {
    Chain(s.recs, s.head)
  }

  predicate Inside(recs: seq<Rec>, c: seq<nat>) {
    forall k | 0 <= k < |c| :: c[k] < |recs|
  }

  /** Every version sits directly above a version its writer could read. */
  predicate Adjacent(sees: Snapshots, recs: seq<Rec>, c: seq<nat>)
    requires Inside(recs, c)
  {
    forall k | 0 < k < |c| :: sees(recs[c[k - 1]].version, recs[c[k]].version)
  }

  /** Transactions other than the reader itself are finished before their version is read. */
  ghost predicate VersionsOK(sees: Snapshots, s: State) {
    && s.live !! s.over
    && (forall v, u | (v in s.live || v in s.over) && sees(v, u) && u != v :: u in s.over)
    && (forall u | 0 <= u <= s.low :: u in s.over)
    && (forall v, u | v in s.live && 0 <= u <= s.low :: sees(v, u))
  }

  predicate Known(s: State, c: seq<nat>) {
    forall k | 0 <= k < |c| :: c[k] < |s.recs| && (s.recs[c[k]].version in s.live || s.recs[c[k]].version in s.over)
  }

  /** The walk from a record starts with a valid record of the same version, or is empty. */
  predicate Leads(recs: seq<Rec>, i: nat)
    requires Ranked(recs) && i < |recs|
  {
    var c := Chain(recs, Some(i));
    c == [] || (c[0] < |recs| && recs[c[0]].version == recs[i].version)
  }

  ghost predicate ThreadInv(sees: Snapshots, s: State, l: Local)
    requires WF(s) && ThreadOK(s, l)
  {
    match l
    case Armed(elem, cur) =>
      var r := s.recs[elem];
      && !r.invalid && !r.sealed && r.next.None? && r.validTo.Active? && r.version in s.live
      && Untouched(s.recs, elem) && s.head != Some(elem)
      && (cur.Some? ==>
            && cur.value != elem
            && sees(r.version, s.recs[cur.value].version) && s.recs[cur.value].version != r.version
            && Leads(s.recs, cur.value))
    case Expiring(elem, cursor) =>
      && !s.recs[elem].invalid && !s.recs[elem].sealed && s.recs[elem].version in s.live
      && List(s) == [elem] + Chain(s.recs, Some(cursor))
    case Sealing(elem) => true
    case Reactivating(v, cursor) => v in s.live
  }

  /** Some running revert will reactivate record `x`. */
  ghost predicate Pending(s: State, x: nat, u: nat)
    requires WF(s)
  {
    exists t | t in s.threads :: Awaits(s, s.threads[t], x, u)
  }

  predicate Awaits(s: State, l: Local, x: nat, u: nat)
    requires WF(s) && ThreadOK(s, l)
  {
    l.Reactivating? && l.version <= u &&
    Chain(s.recs, Some(l.cursor)) != [] && Chain(s.recs, Some(l.cursor))[0] == x
  }

  /** A record in the list is set to expire only below a record not newer than the expiry, or until a running revert
      reactivates it. */
  ghost predicate ExpiryOK(s: State, k: nat)
    requires WF(s) && k < |List(s)| && Inside(s.recs, List(s))
  {
    var c := List(s);
    var to := s.recs[c[k]].validTo;
    to.At? ==> (k > 0 && s.recs[c[k - 1]].version <= to.version) || Pending(s, c[k], to.version)
  }

  /** No two threads write one record, and no thread holds on to the unpublished record of another one. */
  predicate Separate(l: Local, m: Local) {
    && (!l.Reactivating? && !m.Reactivating? ==> l.elem != m.elem)
    && (l.Armed? ==>
          match m
          case Armed(_, cur) => cur != Some(l.elem)
          case Expiring(_, cursor) => cursor != l.elem
          case Sealing(_) => true
          case Reactivating(_, cursor) => cursor != l.elem)
  }

  ghost predicate Inv(sees: Snapshots, s: State) {
    && WF(s)
    && VersionsOK(sees, s)
    && Inside(s.recs, List(s))
    && Known(s, List(s))
    && Adjacent(sees, s.recs, List(s))
    && (forall t | t in s.threads :: ThreadInv(sees, s, s.threads[t]))
    && (forall t, u | t in s.threads && u in s.threads && t != u :: Separate(s.threads[t], s.threads[u]))
    && (forall k | 0 <= k < |List(s)| :: ExpiryOK(s, k))
  }

  // ------------------------------------------------------------------ steps that leave every walk as it is

  ghost predicate SameWalks(recs: seq<Rec>, recs': seq<Rec>)
    requires Ranked(recs) && Ranked(recs') && |recs| <= |recs'|
  {
    forall i: Option<nat> | In(recs, i) :: Chain(recs', i) == Chain(recs, i)
  }

  lemma LinksGiveWalks(recs: seq<Rec>, recs': seq<Rec>)
    requires Ranked(recs) && SameLinks(recs, recs')
    requires forall i | |recs| <= i < |recs'| :: recs'[i].next.None?
    ensures Ranked(recs') && SameWalks(recs, recs')
  {
    forall i | 0 <= i < |recs'| ensures Link(recs', i) {
      if i < |recs| {
        assert Link(recs, i);
      }
    }
    forall i: Option<nat> | In(recs, i) ensures Chain(recs', i) == Chain(recs, i) {
      ChainSameLinks(recs, recs', i);
    }
  }

  /** Expiries stay justified while the list, its expiries and the running reverts stay as they are. */
  lemma SameExpiry(s: State, s': State, k: nat)
    requires WF(s) && WF(s') && |s.recs| <= |s'.recs| && List(s') == List(s) && k < |List(s)|
    requires Inside(s.recs, List(s)) && Inside(s'.recs, List(s')) && ExpiryOK(s, k)
    requires s'.recs[List(s)[k]].validTo == s.recs[List(s)[k]].validTo
    requires k > 0 ==> s'.recs[List(s)[k - 1]].version == s.recs[List(s)[k - 1]].version
    requires forall t | t in s.threads && s.threads[t].Reactivating? ::
               && t in s'.threads && s'.threads[t] == s.threads[t]
               && Chain(s'.recs, Some(s.threads[t].cursor)) == Chain(s.recs, Some(s.threads[t].cursor))
    ensures ExpiryOK(s', k)
  {
    var x, to := List(s)[k], s.recs[List(s)[k]].validTo;
    if to.At? && Pending(s, x, to.version) {
      var t :| t in s.threads && Awaits(s, s.threads[t], x, to.version);
      assert Awaits(s', s'.threads[t], x, to.version);
    }
  }

  lemma VersionsKeepInv(sees: Snapshots, s: State, l: Label)
    requires Inv(sees, s) && Enabled(sees, s, l)
    requires l.Start? || l.Finish? || l.Advance?
    ensures Inv(sees, Next(s, l)) && List(Next(s, l)) == List(s)
  {
    var s' := Next(s, l);
    assert WF(s') by {
      forall t | t in s'.threads ensures ThreadOK(s', s'.threads[t]) {
        assert ThreadOK(s, s.threads[t]);
      }
    }
    forall t | t in s'.threads ensures ThreadInv(sees, s', s'.threads[t]) {
      assert ThreadInv(sees, s, s.threads[t]);
    }
    forall k | 0 <= k < |List(s')| ensures ExpiryOK(s', k) {
      SameExpiry(s, s', k);
    }
  }

  lemma ArmWalks(sees: Snapshots, s: State, l: Label)
    requires Inv(sees, s) && Enabled(sees, s, l) && l.Arm?
    ensures var s' := Next(s, l);
            WF(s') && SameLinks(s.recs, s'.recs) && SameWalks(s.recs, s'.recs) && Untouched(s'.recs, |s.recs|)
  {
    var s' := Next(s, l);
    LinksGiveWalks(s.recs, s'.recs);
    forall t | t in s'.threads ensures ThreadOK(s', s'.threads[t]) {
      assert t != l.tid ==> ThreadOK(s, s.threads[t]);
    }
    forall i | 0 <= i < |s'.recs| ensures s'.recs[i].next != Some(|s.recs|) {
      assert i < |s.recs| ==> Link(s.recs, i);
    }
  }

  lemma ArmKeepsThread(sees: Snapshots, s: State, l: Label, t: nat)
    requires Inv(sees, s) && Enabled(sees, s, l) && l.Arm? && t in Next(s, l).threads
    ensures var s' := Next(s, l); WF(s') && ThreadInv(sees, s', s'.threads[t])
  {
    ArmWalks(sees, s, l);
    if t != l.tid {
      assert ThreadInv(sees, s, s.threads[t]) && ThreadOK(s, s.threads[t]);
    } else if l.below.Some? {
      ChainSorted(s.recs, l.below);
      assert Leads(Next(s, l).recs, l.below.value);
    }
  }

  lemma ArmKeepsInv(sees: Snapshots, s: State, l: Label)
    requires Inv(sees, s) && Enabled(sees, s, l) && l.Arm?
    ensures Inv(sees, Next(s, l)) && List(Next(s, l)) == List(s)
  {
    var s' := Next(s, l);
    ArmWalks(sees, s, l);
    forall t | t in s'.threads ensures ThreadInv(sees, s', s'.threads[t]) {
      ArmKeepsThread(sees, s, l, t);
    }
    forall t, u | t in s'.threads && u in s'.threads && t != u ensures Separate(s'.threads[t], s'.threads[u]) {
      ArmSeparates(sees, s, l, t, u);
    }
    forall k | 0 <= k < |List(s')| ensures ExpiryOK(s', k) {
      SameExpiry(s, s', k);
    }
  }

  lemma ArmSeparates(sees: Snapshots, s: State, l: Label, t: nat, u: nat)
    requires Inv(sees, s) && Enabled(sees, s, l) && l.Arm?
    requires t in Next(s, l).threads && u in Next(s, l).threads && t != u
    ensures Separate(Next(s, l).threads[t], Next(s, l).threads[u])
  {
    if t == l.tid {
      assert ThreadOK(s, s.threads[u]);
    } else if u == l.tid {
      assert ThreadInv(sees, s, s.threads[t]) && ThreadOK(s, s.threads[t]);
    }
  }

  lemma SealWalks(s: State, l: Label)
    requires WF(s) && l.Seal? && l.tid in s.threads && s.threads[l.tid].Sealing?
    ensures var s' := Next(s, l);
            WF(s') && SameLinks(s.recs, s'.recs) && SameWalks(s.recs, s'.recs) && |s'.recs| == |s.recs|
  {
    var s' := Next(s, l);
    LinksGiveWalks(s.recs, s'.recs);
    forall t | t in s'.threads ensures ThreadOK(s', s'.threads[t]) {
      assert ThreadOK(s, s.threads[t]);
    }
  }

  lemma SealKeepsThread(sees: Snapshots, s: State, l: Label, t: nat)
    requires Inv(sees, s) && Enabled(sees, s, l) && l.Seal? && t in Next(s, l).threads
    ensures var s' := Next(s, l); WF(s') && ThreadInv(sees, s', s'.threads[t])
  {
    SealWalks(s, l);
    assert ThreadOK(s, s.threads[t]) && ThreadInv(sees, s, s.threads[t]);
    assert Separate(s.threads[t], s.threads[l.tid]);
  }

  lemma SealKeepsInv(sees: Snapshots, s: State, l: Label)
    requires Inv(sees, s) && Enabled(sees, s, l) && l.Seal?
    ensures Inv(sees, Next(s, l)) && List(Next(s, l)) == List(s)
  {
    hide ThreadInv, Separate;
    var s' := Next(s, l);
    SealWalks(s, l);
    forall t | t in s'.threads ensures ThreadInv(sees, s', s'.threads[t]) {
      SealKeepsThread(sees, s, l, t);
    }
    forall k | 0 <= k < |List(s')| ensures ExpiryOK(s', k) {
      SameExpiry(s, s', k);
    }
  }

  /** A thread that sets an expiry: no link changes, and only that thread's position does. */
  lemma SetToKeepsWalks(sees: Snapshots, s: State, l: Label)
    requires Inv(sees, s) && Enabled(sees, s, l) && (l.Expire? || l.Reactivate?)
    ensures var s' := Next(s, l);
            WF(s') && SameLinks(s.recs, s'.recs) && SameWalks(s.recs, s'.recs) && |s'.recs| == |s.recs|
  {
    var s' := Next(s, l);
    var th := s.threads[l.tid];
    assert ThreadOK(s, th);
    LinksGiveWalks(s.recs, s'.recs);
    assert Link(s.recs, th.cursor);
    forall t | t in s'.threads ensures ThreadOK(s', s'.threads[t]) {
      assert ThreadOK(s, s.threads[t]);
    }
  }

  lemma SetToKeepsThread(sees: Snapshots, s: State, l: Label, t: nat)
    requires Inv(sees, s) && Enabled(sees, s, l) && (l.Expire? || l.Reactivate?)
    requires t in Next(s, l).threads
    ensures var s' := Next(s, l); WF(s') && ThreadInv(sees, s', s'.threads[t])
  {
    hide VersionsOK, Known, Adjacent, ExpiryOK;
    SetToKeepsWalks(sees, s, l);
    var th := s.threads[l.tid];
    assert ThreadOK(s, th) && ThreadInv(sees, s, th) && Link(s.recs, th.cursor);
    if t != l.tid {
      assert ThreadOK(s, s.threads[t]) && ThreadInv(sees, s, s.threads[t]) && Separate(s.threads[t], th);
    }
  }

  lemma SetToKeepsSeparate(sees: Snapshots, s: State, l: Label, t: nat, u: nat)
    requires Inv(sees, s) && Enabled(sees, s, l) && (l.Expire? || l.Reactivate?)
    requires t in Next(s, l).threads && u in Next(s, l).threads && t != u
    ensures Separate(Next(s, l).threads[t], Next(s, l).threads[u])
  {
    assert Separate(s.threads[t], s.threads[u]);
    assert ThreadOK(s, s.threads[t]) && ThreadOK(s, s.threads[u]);
    assert ThreadInv(sees, s, s.threads[t]) && ThreadInv(sees, s, s.threads[u]);
  }

  lemma SetToKeepsThreads(sees: Snapshots, s: State, l: Label)
    requires Inv(sees, s) && Enabled(sees, s, l) && (l.Expire? || l.Reactivate?)
    ensures var s' := Next(s, l);
            && WF(s') && SameWalks(s.recs, s'.recs)
            && (forall t | t in s'.threads :: ThreadInv(sees, s', s'.threads[t]))
            && (forall t, u | t in s'.threads && u in s'.threads && t != u ::
                  Separate(s'.threads[t], s'.threads[u]))
  {
    SetToKeepsWalks(sees, s, l);
    var s' := Next(s, l);
    forall t | t in s'.threads ensures ThreadInv(sees, s', s'.threads[t]) {
      SetToKeepsThread(sees, s, l, t);
    }
    forall t, u | t in s'.threads && u in s'.threads && t != u ensures Separate(s'.threads[t], s'.threads[u]) {
      SetToKeepsSeparate(sees, s, l, t, u);
    }
  }

  lemma ExpireKeepsExpiry(sees: Snapshots, s: State, l: Label, k: nat)
    requires Inv(sees, s) && Enabled(sees, s, l) && l.Expire? && k < |List(s)|
    ensures var s' := Next(s, l);
            WF(s') && List(s') == List(s) && Inside(s'.recs, List(s')) && ExpiryOK(s', k)
  {
    SetToKeepsWalks(sees, s, l);
    var s' := Next(s, l);
    var th, c := s.threads[l.tid], List(s);
    assert ThreadOK(s, th) && ThreadInv(sees, s, th);
    if c[k] == th.cursor && !s.recs[th.cursor].invalid {
      ChainSorted(s.recs, Some(th.cursor));
      ChainSorted(s.recs, s.head);
      assert c[1] == th.cursor;
    } else {
      SameExpiry(s, s', k);
    }
  }

  lemma ExpireKeepsInv(sees: Snapshots, s: State, l: Label)
    requires Inv(sees, s) && Enabled(sees, s, l) && l.Expire?
    ensures Inv(sees, Next(s, l)) && List(Next(s, l)) == List(s)
  {
    SetToKeepsThreads(sees, s, l);
    var s' := Next(s, l);
    assert SameLinks(s.recs, s'.recs);
    forall k | 0 <= k < |List(s')| ensures ExpiryOK(s', k) {
      ExpireKeepsExpiry(sees, s, l, k);
    }
  }

  lemma ReactivateKeepsExpiry(sees: Snapshots, s: State, l: Label, k: nat)
    requires Inv(sees, s) && Enabled(sees, s, l) && l.Reactivate? && k < |List(s)|
    ensures var s' := Next(s, l);
            WF(s') && List(s') == List(s) && Inside(s'.recs, List(s')) && ExpiryOK(s', k)
  {
    hide VersionsOK, Known, Adjacent;
    SetToKeepsWalks(sees, s, l);
    var s' := Next(s, l);
    var th, c := s.threads[l.tid], List(s);
    assert ThreadOK(s, th) && ExpiryOK(s, k);
    ChainSorted(s.recs, Some(th.cursor));
    var to := s.recs[c[k]].validTo;
    if to.At? && Pending(s, c[k], to.version) {
      var t :| t in s.threads && Awaits(s, s.threads[t], c[k], to.version);
      assert t == l.tid && s.recs[th.cursor].invalid ==> s.recs[th.cursor].next.Some? by {
        assert Chain(s.recs, None) == [];
      }
      if t != l.tid || s.recs[th.cursor].invalid {
        assert t in s'.threads;
        assert Awaits(s', s'.threads[t], c[k], to.version);
      }
    }
  }

  lemma ReactivateKeepsInv(sees: Snapshots, s: State, l: Label)
    requires Inv(sees, s) && Enabled(sees, s, l) && l.Reactivate?
    ensures Inv(sees, Next(s, l)) && List(Next(s, l)) == List(s)
  {
    SetToKeepsThreads(sees, s, l);
    var s' := Next(s, l);
    assert SameLinks(s.recs, s'.recs);
    forall k | 0 <= k < |List(s')| ensures ExpiryOK(s', k) {
      ReactivateKeepsExpiry(sees, s, l, k);
    }
  }

  lemma FireWalks(sees: Snapshots, s: State, l: Label)
    requires ReadsOK(sees) && Inv(sees, s) && Enabled(sees, s, l) && l.Fire?
    ensures var s', e := Next(s, l), s.threads[l.tid].elem;
            && Ranked(s'.recs)
            && Chain(s'.recs, Some(e)) == [e] + List(s)
            && (forall i: Option<nat> | In(s.recs, i) && i != Some(e) :: Chain(s'.recs, i) == Chain(s.recs, i))
  {
    var s' := Next(s, l);
    var th := s.threads[l.tid];
    assert ThreadOK(s, th) && ThreadInv(sees, s, th);
    assert Ranked(s'.recs) by {
      forall i | 0 <= i < |s'.recs| ensures Link(s'.recs, i) {
        assert Link(s.recs, i);
      }
    }
    forall i: Option<nat> | In(s.recs, i) && i != Some(th.elem) ensures Chain(s'.recs, i) == Chain(s.recs, i) {
      ChainFresh(s.recs, th.elem, s'.recs[th.elem], i);
    }
    assert Link(s'.recs, th.elem);
  }

  lemma FireKeepsExpiry(sees: Snapshots, s: State, l: Label, k: nat)
    requires ReadsOK(sees) && Inv(sees, s) && Enabled(sees, s, l) && l.Fire?
    requires WF(Next(s, l)) && k < |List(Next(s, l))| && Inside(Next(s, l).recs, List(Next(s, l)))
    ensures ExpiryOK(Next(s, l), k)
  {
    FireWalks(sees, s, l);
    var s', c := Next(s, l), List(s);
    var th := s.threads[l.tid];
    assert ThreadOK(s, th) && ThreadInv(sees, s, th);
    if k > 0 {
      assert List(s')[k] == c[k - 1] && ExpiryOK(s, k - 1);
      var to := s.recs[c[k - 1]].validTo;
      if to.At? && Pending(s, c[k - 1], to.version) {
        var t :| t in s.threads && Awaits(s, s.threads[t], c[k - 1], to.version);
        assert Separate(th, s.threads[t]);
        assert Awaits(s', s'.threads[t], c[k - 1], to.version);
      } else if k > 1 {
        assert List(s')[k - 1] == c[k - 2];
      }
    }
  }

  lemma FireKeepsInv(sees: Snapshots, s: State, l: Label)
    requires ReadsOK(sees) && Inv(sees, s) && Enabled(sees, s, l) && l.Fire?
    ensures Inv(sees, Next(s, l)) && List(Next(s, l)) == [s.threads[l.tid].elem] + List(s)
  {
    FireWalks(sees, s, l);
    FireKeepsThreads(sees, s, l);
    var s' := Next(s, l);
    var th := s.threads[l.tid];
    assert ThreadOK(s, th) && ThreadInv(sees, s, th);
    var c, c' := List(s), List(s');
    if th.cur.Some? {
      assert Leads(s.recs, th.cur.value);
    }
    forall k | 0 < k < |c'| ensures sees(s'.recs[c'[k - 1]].version, s'.recs[c'[k]].version) {
      assert c'[k] == c[k - 1];
      if k > 1 {
        assert c'[k - 1] == c[k - 2];
      }
    }
    forall k | 0 <= k < |c'| ensures ExpiryOK(s', k) {
      FireKeepsExpiry(sees, s, l, k);
    }
  }

  lemma FireKeepsThreads(sees: Snapshots, s: State, l: Label)
    requires ReadsOK(sees) && Inv(sees, s) && Enabled(sees, s, l) && l.Fire?
    requires var s', e := Next(s, l), s.threads[l.tid].elem;
             && Ranked(s'.recs)
             && Chain(s'.recs, Some(e)) == [e] + List(s)
             && (forall i: Option<nat> | In(s.recs, i) && i != Some(e) :: Chain(s'.recs, i) == Chain(s.recs, i))
    ensures var s' := Next(s, l);
            && WF(s')
            && (forall t | t in s'.threads :: ThreadInv(sees, s', s'.threads[t]))
            && (forall t, u | t in s'.threads && u in s'.threads && t != u ::
                  Separate(s'.threads[t], s'.threads[u]))
  {
    hide Known, Adjacent, ExpiryOK;
    var s' := Next(s, l);
    var th := s.threads[l.tid];
    assert ThreadOK(s, th) && ThreadInv(sees, s, th);
    forall t | t in s'.threads ensures ThreadOK(s', s'.threads[t]) {
      assert ThreadOK(s, s.threads[t]);
    }
    forall t | t in s'.threads ensures ThreadInv(sees, s', s'.threads[t]) {
      if t != l.tid {
        assert ThreadOK(s, s.threads[t]) && ThreadInv(sees, s, s.threads[t]);
        assert Separate(th, s.threads[t]) && Separate(s.threads[t], th);
      }
    }
    FireKeepsSeparate(sees, s, l);
  }

  lemma FireKeepsSeparate(sees: Snapshots, s: State, l: Label)
    requires Inv(sees, s) && Enabled(sees, s, l) && l.Fire?
    ensures var s' := Next(s, l);
            forall t, u | t in s'.threads && u in s'.threads && t != u :: Separate(s'.threads[t], s'.threads[u])
  {
    hide VersionsOK, Known, Adjacent, ExpiryOK, ThreadInv;
    var s' := Next(s, l);
    forall t, u | t in s'.threads && u in s'.threads && t != u ensures Separate(s'.threads[t], s'.threads[u]) {
      assert Separate(s.threads[t], s.threads[u]) && Separate(s.threads[u], s.threads[t]);
    }
  }

  lemma UnlinkWalks(sees: Snapshots, s: State, l: Label)
    requires Inv(sees, s) && Enabled(sees, s, l) && (l.UnlinkHead? || l.UnlinkNext?)
    ensures var s' := Next(s, l);
            WF(s') && SameWalks(s.recs, s'.recs) && List(s') == List(s)
  {
    var s' := Next(s, l);
    if l.UnlinkHead? {
      assert Link(s.recs, s.head.value);
    } else {
      UnlinkRanked(s.recs, l.prev);
      forall i: Option<nat> | In(s.recs, i) ensures Chain(s'.recs, i) == Chain(s.recs, i) {
        ChainUnlink(s.recs, l.prev, i);
      }
    }
    forall t | t in s'.threads ensures ThreadOK(s', s'.threads[t]) {
      assert ThreadOK(s, s.threads[t]);
    }
  }

  lemma UnlinkKeepsThread(sees: Snapshots, s: State, l: Label, t: nat)
    requires Inv(sees, s) && Enabled(sees, s, l) && (l.UnlinkHead? || l.UnlinkNext?) && t in s.threads
    ensures var s' := Next(s, l); WF(s') && ThreadInv(sees, s', s'.threads[t])
  {
    UnlinkWalks(sees, s, l);
    assert ThreadOK(s, s.threads[t]) && ThreadInv(sees, s, s.threads[t]);
  }

  lemma UnlinkKeepsInv(sees: Snapshots, s: State, l: Label)
    requires Inv(sees, s) && Enabled(sees, s, l) && (l.UnlinkHead? || l.UnlinkNext?)
    ensures Inv(sees, Next(s, l)) && List(Next(s, l)) == List(s)
  {
    var s' := Next(s, l);
    UnlinkWalks(sees, s, l);
    forall t | t in s'.threads ensures ThreadInv(sees, s', s'.threads[t]) {
      UnlinkKeepsThread(sees, s, l, t);
    }
    forall k | 0 <= k < |List(s')| ensures ExpiryOK(s', k) {
      SameExpiry(s, s', k);
    }
  }

  // ------------------------------------------------------------------ replacing a record by a copy

  lemma SwapWF(s: State, l: Label)
    requires WF(s) && (l.Replace? || l.Recycle?) && l.tid !in s.threads
    requires l.cur < |s.recs| && !s.recs[l.cur].invalid
    ensures WF(Next(s, l))
  {
    var s' := Next(s, l);
    if l.Replace? {
      SwapRanked(s.recs, l.cur, l.op.Delete?, l.data);
    } else {
      SwapRanked(s.recs, l.cur, s.recs[l.cur].deletion, s.recs[l.cur].data);
    }
    forall t | t in s'.threads ensures ThreadOK(s', s'.threads[t]) {
      assert t != l.tid ==> ThreadOK(s, s.threads[t]);
    }
  }

  lemma SwapWalk(s: State, l: Label, i: Option<nat>)
    requires WF(s) && (l.Replace? || l.Recycle?) && l.tid !in s.threads
    requires l.cur < |s.recs| && !s.recs[l.cur].invalid && In(s.recs, i)
    ensures WF(Next(s, l))
    ensures Chain(Next(s, l).recs, i) == Renamed(Chain(s.recs, i), l.cur, |s.recs|)
    ensures Inside(s.recs, Chain(s.recs, i))
  {
    SwapWF(s, l);
    ChainSorted(s.recs, i);
    if l.Replace? {
      ChainSwap(s.recs, l.cur, l.op.Delete?, l.data, i);
    } else {
      ChainSwap(s.recs, l.cur, s.recs[l.cur].deletion, s.recs[l.cur].data, i);
    }
  }

  lemma SwapKeepsInv(sees: Snapshots, s: State, l: Label)
    requires Inv(sees, s) && Enabled(sees, s, l) && (l.Replace? || l.Recycle?)
    ensures Inv(sees, Next(s, l)) && List(Next(s, l)) == Renamed(List(s), l.cur, |s.recs|)
  {
    var s' := Next(s, l);
    SwapWalk(s, l, s.head);
    assert forall i | 0 <= i < |s.recs| :: s'.recs[i].version == s.recs[i].version;
    assert s'.recs[|s.recs|].version == s.recs[l.cur].version;
    var c, c' := List(s), List(s');
    forall k | 0 <= k < |c'| ensures c'[k] < |s'.recs| && s'.recs[c'[k]].version == s.recs[c[k]].version {
    }
    forall t | t in s'.threads ensures ThreadInv(sees, s', s'.threads[t]) {
      if t != l.tid {
        SwapKeepsThread(sees, s, l, t);
      }
    }
    forall t, u | t in s'.threads && u in s'.threads && t != u ensures Separate(s'.threads[t], s'.threads[u]) {
      SwapSeparates(sees, s, l, t, u);
    }
    forall k | 0 <= k < |c'| ensures ExpiryOK(s', k) {
      SwapKeepsExpiry(sees, s, l, k);
    }
  }

  lemma SwapSeparates(sees: Snapshots, s: State, l: Label, t: nat, u: nat)
    requires Inv(sees, s) && Enabled(sees, s, l) && (l.Replace? || l.Recycle?)
    requires t in Next(s, l).threads && u in Next(s, l).threads && t != u
    ensures Separate(Next(s, l).threads[t], Next(s, l).threads[u])
  {
    if t == l.tid {
      assert ThreadOK(s, s.threads[u]);
    } else if u == l.tid {
      assert ThreadOK(s, s.threads[t]);
    }
  }

  lemma SwapKeepsArmed(sees: Snapshots, s: State, l: Label, th: Local)
    requires Inv(sees, s) && Enabled(sees, s, l) && (l.Replace? || l.Recycle?)
    requires th.Armed? && ThreadOK(s, th) && ThreadInv(sees, s, th)
    ensures var s' := Next(s, l); WF(s') && ThreadInv(sees, s', th)
  {
    SwapWF(s, l);
    var s' := Next(s, l);
    assert Link(s.recs, l.cur);
    assert Untouched(s'.recs, th.elem);
    if th.cur.Some? {
      SwapWalk(s, l, th.cur);
      assert Leads(s'.recs, th.cur.value);
    }
  }

  lemma SwapKeepsThread(sees: Snapshots, s: State, l: Label, t: nat)
    requires Inv(sees, s) && Enabled(sees, s, l) && (l.Replace? || l.Recycle?)
    requires t in s.threads && t != l.tid
    ensures var s' := Next(s, l); WF(s') && ThreadInv(sees, s', s'.threads[t])
  {
    hide VersionsOK, Known, Adjacent, Separate, ExpiryOK;
    SwapWF(s, l);
    var th := s.threads[t];
    assert ThreadOK(s, th) && ThreadInv(sees, s, th);
    match th
    case Armed(_, _) => SwapKeepsArmed(sees, s, l, th);
    case Expiring(elem, cursor) =>
      SwapWalk(s, l, s.head);
      SwapWalk(s, l, Some(cursor));
      var rest := Chain(s.recs, Some(cursor));
      assert Renamed([elem] + rest, l.cur, |s.recs|) == [elem] + Renamed(rest, l.cur, |s.recs|);
    case _ =>
  }

  lemma SwapKeepsExpiry(sees: Snapshots, s: State, l: Label, k: nat)
    requires Inv(sees, s) && Enabled(sees, s, l) && (l.Replace? || l.Recycle?)
    requires k < |List(s)|
    ensures var s' := Next(s, l);
            WF(s') && Inside(s'.recs, List(s')) && k < |List(s')| && ExpiryOK(s', k)
  {
    hide VersionsOK, Known, Adjacent;
    SwapWalk(s, l, s.head);
    var s' := Next(s, l);
    var c, c' := List(s), List(s');
    assert ExpiryOK(s, k);
    var to := s.recs[c[k]].validTo;
    assert s'.recs[c'[k]].validTo == to;
    if to.At? && Pending(s, c[k], to.version) {
      var t :| t in s.threads && Awaits(s, s.threads[t], c[k], to.version);
      assert ThreadOK(s, s.threads[t]);
      SwapWalk(s, l, Some(s.threads[t].cursor));
      assert Awaits(s', s'.threads[t], c'[k], to.version);
    }
  }

  // ------------------------------------------------------------------ removing the newest record

  /** A record of a running transaction is in the list only as the newest one. */
  lemma OwnIsNewest(sees: Snapshots, s: State, x: nat, v: nat)
    requires Inv(sees, s) && v in s.live && x < |s.recs| && s.recs[x].version == v && x in List(s)
    ensures |List(s)| > 0 && List(s)[0] == x
  {
    var c := List(s);
    ChainSorted(s.recs, s.head);
    forall j | 0 < j < |c| ensures s.recs[c[j]].version in s.over {
      assert sees(s.recs[c[j - 1]].version, s.recs[c[j]].version);
    }
  }

  lemma MarkWF(s: State, l: Label)
    requires WF(s) && l.Remove? && l.tid !in s.threads && l.cur < |s.recs|
    ensures WF(Next(s, l))
  {
    var s' := Next(s, l);
    ChainMark(s.recs, l.cur, None);
    assert Link(s.recs, l.cur);
    forall t | t in s'.threads ensures ThreadOK(s', s'.threads[t]) {
      assert t in s.threads ==> ThreadOK(s, s.threads[t]);
    }
  }

  /** After the removal of the newest record the list is what was below it. */
  lemma RemoveList(sees: Snapshots, s: State, l: Label)
    requires Inv(sees, s) && Enabled(sees, s, l) && l.Remove?
    ensures WF(Next(s, l))
    ensures l.cur !in List(s) ==> List(Next(s, l)) == List(s)
    ensures l.cur in List(s) ==>
              && List(s)[0] == l.cur && List(Next(s, l)) == List(s)[1..]
              && In(s.recs, s.recs[l.cur].next) && Chain(Next(s, l).recs, s.recs[l.cur].next) == List(s)[1..]
  {
    MarkWF(s, l);
    var c := List(s);
    ChainMark(s.recs, l.cur, s.head);
    if l.cur in c {
      OwnIsNewest(sees, s, l.cur, l.version);
      ChainTail(s.recs, s.head, 0);
      ChainMark(s.recs, l.cur, s.recs[l.cur].next);
      ChainSorted(s.recs, s.head);
      assert l.cur !in c[1..];
      WithoutAbsent(c[1..], l.cur);
    } else {
      WithoutAbsent(c, l.cur);
    }
  }

  lemma RemoveKeepsThread(sees: Snapshots, s: State, l: Label, t: nat)
    requires Inv(sees, s) && Enabled(sees, s, l) && l.Remove? && t in s.threads
    ensures var s' := Next(s, l); WF(s') && t in s'.threads && ThreadInv(sees, s', s'.threads[t])
  {
    RemoveList(sees, s, l);
    var s' := Next(s, l);
    var th := s.threads[t];
    assert ThreadOK(s, th) && ThreadInv(sees, s, th);
    match th
    case Armed(elem, cur) =>
      assert Untouched(s'.recs, elem);
      if cur.Some? {
        ChainMark(s.recs, l.cur, cur);
        assert Leads(s.recs, cur.value);
        assert s.recs[cur.value].version in s.over;
        assert Leads(s'.recs, cur.value);
      }
    case Expiring(elem, cursor) =>
      ChainMark(s.recs, l.cur, Some(cursor));
      ChainSorted(s.recs, s.head);
      assert l.cur !in List(s);
      WithoutAbsent(Chain(s.recs, Some(cursor)), l.cur);
    case _ =>
  }

  /** A revert that was to reactivate another record still is. */
  lemma RemoveKeepsAwaits(s: State, l: Label, th: Local, x: nat, u: nat)
    requires WF(s) && l.Remove? && l.tid !in s.threads && l.cur < |s.recs| && WF(Next(s, l))
    requires ThreadOK(s, th) && Awaits(s, th, x, u) && x != l.cur
    ensures ThreadOK(Next(s, l), th) && Awaits(Next(s, l), th, x, u)
  {
    ChainMark(s.recs, l.cur, Some(th.cursor));
  }

  /** The revert itself will reactivate the record below the one it removes. */
  lemma RemoveAwaits(sees: Snapshots, s: State, l: Label, u: nat)
    requires Inv(sees, s) && Enabled(sees, s, l) && l.Remove? && l.cur in List(s)
    requires WF(Next(s, l)) && List(Next(s, l)) != [] && l.version <= u
    ensures Pending(Next(s, l), List(Next(s, l))[0], u)
  {
    hide VersionsOK, Known, Adjacent, Separate, ThreadInv, ExpiryOK;
    RemoveList(sees, s, l);
    var s' := Next(s, l);
    assert Chain(s'.recs, s.recs[l.cur].next) != [];
    assert s.recs[l.cur].next.Some?;
    assert Awaits(s', s'.threads[l.tid], List(s')[0], u);
  }

  lemma RemoveKeepsExpiry(sees: Snapshots, s: State, l: Label, k: nat)
    requires Inv(sees, s) && Enabled(sees, s, l) && l.Remove?
    requires WF(Next(s, l)) && k < |List(Next(s, l))| && Inside(Next(s, l).recs, List(Next(s, l)))
    ensures ExpiryOK(Next(s, l), k)
  {
    hide VersionsOK, Known, Adjacent, Separate, ThreadInv, Awaits, Chain, Ranked, Link;
    RemoveList(sees, s, l);
    var s' := Next(s, l);
    var c, c' := List(s), List(s');
    ChainSorted(s.recs, s.head);
    var j := if l.cur in c then k + 1 else k;
    assert c[j] == c'[k] && ExpiryOK(s, j) && c[j] != l.cur;
    var to := s.recs[c[j]].validTo;
    if to.At? && Pending(s, c[j], to.version) {
      var t :| t in s.threads && Awaits(s, s.threads[t], c[j], to.version);
      RemoveKeepsAwaits(s, l, s.threads[t], c[j], to.version);
      assert t in s'.threads && Awaits(s', s'.threads[t], c[j], to.version);
    } else if to.At? && l.cur in c && k == 0 {
      RemoveAwaits(sees, s, l, to.version);
    } else if to.At? {
      assert c[j - 1] == c'[k - 1];
    }
  }

  lemma RemoveKeepsInv(sees: Snapshots, s: State, l: Label)
    requires Inv(sees, s) && Enabled(sees, s, l) && l.Remove?
    ensures Inv(sees, Next(s, l))
  {
    hide Separate, ThreadInv;
    RemoveList(sees, s, l);
    var s' := Next(s, l);
    ChainSorted(s'.recs, s'.head);
    RemoveKeepsThreads(sees, s, l);
    forall k | 0 <= k < |List(s')| ensures ExpiryOK(s', k) {
      RemoveKeepsExpiry(sees, s, l, k);
    }
  }

  lemma RemoveKeepsThreads(sees: Snapshots, s: State, l: Label)
    requires Inv(sees, s) && Enabled(sees, s, l) && l.Remove?
    ensures var s' := Next(s, l);
            && WF(s') && (forall t | t in s'.threads :: ThreadInv(sees, s', s'.threads[t]))
            && (forall t, u | t in s'.threads && u in s'.threads && t != u :: Separate(s'.threads[t], s'.threads[u]))
  {
    var s' := Next(s, l);
    RemoveList(sees, s, l);
    forall t | t in s'.threads ensures ThreadInv(sees, s', s'.threads[t]) {
      if t in s.threads {
        RemoveKeepsThread(sees, s, l, t);
      }
    }
    forall t, u | t in s'.threads && u in s'.threads && t != u ensures Separate(s'.threads[t], s'.threads[u]) {
      if t in s.threads && u !in s.threads {
        assert ThreadOK(s, s.threads[t]) && ThreadInv(sees, s, s.threads[t]);
      }
    }
  }

  lemma DisarmWalks(sees: Snapshots, s: State, l: Label)
    requires Inv(sees, s) && Enabled(sees, s, l) && l.Disarm?
    ensures var s', e := Next(s, l), s.threads[l.tid].elem;
            && WF(s')
            && s.head != Some(e)
            && (forall i: Option<nat> | In(s.recs, i) && i != Some(e) :: Chain(s'.recs, i) == Chain(s.recs, i))
  {
    var s' := Next(s, l);
    var th := s.threads[l.tid];
    assert ThreadOK(s, th) && ThreadInv(sees, s, th);
    assert Ranked(s'.recs) by {
      forall i | 0 <= i < |s'.recs| ensures Link(s'.recs, i) {
        assert Link(s.recs, i);
      }
    }
    forall i: Option<nat> | In(s.recs, i) && i != Some(th.elem) ensures Chain(s'.recs, i) == Chain(s.recs, i) {
      ChainFresh(s.recs, th.elem, s'.recs[th.elem], i);
    }
    forall t | t in s'.threads ensures ThreadOK(s', s'.threads[t]) {
      assert ThreadOK(s, s.threads[t]);
    }
  }

  lemma DisarmKeepsThread(sees: Snapshots, s: State, l: Label, t: nat)
    requires Inv(sees, s) && Enabled(sees, s, l) && l.Disarm? && t in Next(s, l).threads
    ensures var s' := Next(s, l); WF(s') && ThreadInv(sees, s', s'.threads[t])
  {
    DisarmWalks(sees, s, l);
    var th := s.threads[l.tid];
    assert ThreadOK(s, s.threads[t]) && ThreadInv(sees, s, s.threads[t]);
    assert Separate(th, s.threads[t]) && Separate(s.threads[t], th);
  }

  lemma DisarmKeepsInv(sees: Snapshots, s: State, l: Label)
    requires Inv(sees, s) && Enabled(sees, s, l) && l.Disarm?
    ensures Inv(sees, Next(s, l)) && List(Next(s, l)) == List(s)
  {
    var s' := Next(s, l);
    DisarmWalks(sees, s, l);
    forall t | t in s'.threads ensures ThreadInv(sees, s', s'.threads[t]) {
      DisarmKeepsThread(sees, s, l, t);
    }
    forall t | t in s.threads && s.threads[t].Reactivating?
      ensures Chain(s'.recs, Some(s.threads[t].cursor)) == Chain(s.recs, Some(s.threads[t].cursor))
    {
      assert ThreadOK(s, s.threads[t]) && Separate(s.threads[l.tid], s.threads[t]);
    }
    forall k | 0 <= k < |List(s')| ensures ExpiryOK(s', k) {
      SameExpiry(s, s', k);
    }
  }

  // ------------------------------------------------------------------ garbage collection cuts the list

  lemma CutKeepsThread(sees: Snapshots, s: State, x: nat, l: Local)
    requires Inv(sees, s) && x < |s.recs| && !s.recs[x].invalid && s.recs[x].sealed
    requires ThreadOK(s, l) && ThreadInv(sees, s, l)
    requires WF(s.(recs := Cut(s.recs, x)))
    ensures ThreadInv(sees, s.(recs := Cut(s.recs, x)), l)
  {
    var s' := s.(recs := Cut(s.recs, x));
    match l
    case Armed(elem, cur) =>
      assert Untouched(s'.recs, elem);
      if cur.Some? {
        ChainCut(s.recs, x, cur);
        assert Leads(s'.recs, cur.value);
      }
    case Expiring(elem, cursor) =>
      ChainCut(s.recs, x, s.head);
      ChainCut(s.recs, x, Some(cursor));
      var rest := Chain(s.recs, Some(cursor));
      assert ([elem] + rest)[1..] == rest;
    case _ =>
  }

  lemma CutKeepsExpiry(sees: Snapshots, s: State, x: nat, k: nat)
    requires Inv(sees, s) && x < |s.recs| && !s.recs[x].invalid
    requires WF(s.(recs := Cut(s.recs, x)))
    requires k < |Before(List(s), x)|
    ensures var s' := s.(recs := Cut(s.recs, x));
            List(s') == Before(List(s), x) && Inside(s'.recs, List(s')) && ExpiryOK(s', k)
  {
    var s' := s.(recs := Cut(s.recs, x));
    ChainCut(s.recs, x, s.head);
    var c := List(s);
    BeforePrefix(c, x);
    assert c[k] != x && ExpiryOK(s, k);
    var to := s.recs[c[k]].validTo;
    if to.At? && Pending(s, c[k], to.version) {
      var t :| t in s.threads && Awaits(s, s.threads[t], c[k], to.version);
      assert ThreadOK(s, s.threads[t]);
      ChainCut(s.recs, x, Some(s.threads[t].cursor));
      assert Awaits(s', s'.threads[t], c[k], to.version);
    }
  }

  lemma CutKeepsList(sees: Snapshots, s: State, x: nat)
    requires Inv(sees, s) && x < |s.recs| && !s.recs[x].invalid
    ensures var s' := s.(recs := Cut(s.recs, x));
            && WF(s') && List(s') == Before(List(s), x)
            && Inside(s'.recs, List(s')) && Known(s', List(s')) && Adjacent(sees, s'.recs, List(s'))
  {
    var s' := s.(recs := Cut(s.recs, x));
    ChainCut(s.recs, x, s.head);
    BeforePrefix(List(s), x);
    forall t | t in s'.threads ensures ThreadOK(s', s'.threads[t]) {
      assert ThreadOK(s, s.threads[t]);
    }
    var c, c' := List(s), Before(List(s), x);
    assert forall k | 0 <= k < |c'| :: c'[k] == c[k];
  }

  lemma CutKeepsInv(sees: Snapshots, s: State, l: Label)
    requires Inv(sees, s) && Enabled(sees, s, l) && (l.GcExpired? || l.GcDeletion?)
    ensures Inv(sees, Next(s, l)) && List(Next(s, l)) == Before(List(s), l.rec)
  {
    var s' := Next(s, l);
    CutKeepsList(sees, s, l.rec);
    forall t | t in s'.threads ensures ThreadInv(sees, s', s'.threads[t]) {
      assert ThreadOK(s, s.threads[t]) && ThreadInv(sees, s, s.threads[t]);
      CutKeepsThread(sees, s, l.rec, s.threads[t]);
    }
    forall k | 0 <= k < |List(s')| ensures ExpiryOK(s', k) {
      CutKeepsExpiry(sees, s, l.rec, k);
    }
  }

  lemma NextKeepsInv(sees: Snapshots, s: State, l: Label)
    requires ReadsOK(sees) && Inv(sees, s) && Enabled(sees, s, l)
    ensures Inv(sees, Next(s, l))
  {
    match l
    case Arm(_, _, _, _, _) => ArmKeepsInv(sees, s, l);
    case Fire(_) => FireKeepsInv(sees, s, l);
    case Disarm(_) => DisarmKeepsInv(sees, s, l);
    case Expire(_) => ExpireKeepsInv(sees, s, l);
    case Seal(_) => SealKeepsInv(sees, s, l);
    case Replace(_, _, _, _, _) => SwapKeepsInv(sees, s, l);
    case Recycle(_, _) => SwapKeepsInv(sees, s, l);
    case Remove(_, _, _) => RemoveKeepsInv(sees, s, l);
    case Reactivate(_) => ReactivateKeepsInv(sees, s, l);
    case UnlinkHead => UnlinkKeepsInv(sees, s, l);
    case UnlinkNext(_) => UnlinkKeepsInv(sees, s, l);
    case GcExpired(_, _) => CutKeepsInv(sees, s, l);
    case GcDeletion(_, _) => CutKeepsInv(sees, s, l);
    case Start(_) => VersionsKeepInv(sees, s, l);
    case Finish(_) => VersionsKeepInv(sees, s, l);
    case Advance(_) => VersionsKeepInv(sees, s, l);
  }

  // ------------------------------------------------------------------ runs

  predicate Init(s: State) {
    s.recs == [] && s.head.None? && s.threads == map[] && s.live == {} && s.over == {0} && s.low == 0
  }

  ghost predicate Step(sees: Snapshots, s: State, l: Label, s': State) {
    WF(s) && Enabled(sees, s, l) && s' == Next(s, l)
  }

  ghost predicate Execution(sees: Snapshots, ss: seq<State>, ls: seq<Label>) {
    && ReadsOK(sees)
    && |ss| == |ls| + 1 && Init(ss[0])
    && forall i | 0 <= i < |ls| :: Step(sees, ss[i], ls[i], ss[i + 1])
  }

  lemma InitInv(sees: Snapshots, s: State)
    requires ReadsOK(sees) && Init(s)
    ensures Inv(sees, s)
  {
  }

  lemma {:induction false} ExecutionInv(sees: Snapshots, ss: seq<State>, ls: seq<Label>, i: nat)
    requires Execution(sees, ss, ls) && i < |ss|
    ensures Inv(sees, ss[i])
  {
    if i == 0 {
      InitInv(sees, ss[0]);
    } else {
      ExecutionInv(sees, ss, ls, i - 1);
      assert Step(sees, ss[i - 1], ls[i - 1], ss[i]);
      NextKeepsInv(sees, ss[i - 1], ls[i - 1]);
    }
  }

  /** In every reachable state the walk from the head ends, meets strictly decreasing versions, and every record on
      the raw walk points to a record of a version that is not larger. */
  lemma WalkIsSorted(sees: Snapshots, ss: seq<State>, ls: seq<Label>, i: nat)
    requires Execution(sees, ss, ls) && i < |ss|
    ensures WF(ss[i]) && Inside(ss[i].recs, List(ss[i])) && Descending(ss[i].recs, List(ss[i]))
    ensures forall r | 0 <= r < |ss[i].recs| && ss[i].recs[r].next.Some? ::
              ss[i].recs[r].next.value < |ss[i].recs|
              && ss[i].recs[ss[i].recs[r].next.value].version <= ss[i].recs[r].version
  {
    ExecutionInv(sees, ss, ls, i);
    ChainSorted(ss[i].recs, ss[i].head);
    forall r | 0 <= r < |ss[i].recs| && ss[i].recs[r].next.Some?
      ensures ss[i].recs[r].next.value < |ss[i].recs|
              && ss[i].recs[ss[i].recs[r].next.value].version <= ss[i].recs[r].version
    {
      assert Link(ss[i].recs, r);
    }
  }

  /** A record is never moved or rewritten, and the mutable data of an invalid record never changes again. */
  lemma RecordsPersist(sees: Snapshots, ss: seq<State>, ls: seq<Label>, i: nat, r: nat)
    requires Execution(sees, ss, ls) && i < |ls| && r < |ss[i].recs|
    ensures r < |ss[i + 1].recs|
    ensures ss[i + 1].recs[r].version == ss[i].recs[r].version && ss[i + 1].recs[r].data == ss[i].recs[r].data
            && ss[i + 1].recs[r].deletion == ss[i].recs[r].deletion
    ensures ss[i].recs[r].invalid ==>
              ss[i + 1].recs[r].invalid && ss[i + 1].recs[r].next == ss[i].recs[r].next
              && ss[i + 1].recs[r].validTo == ss[i].recs[r].validTo
  {
    hide Inv, Enabled, Next;
    ExecutionInv(sees, ss, ls, i);
    assert Step(sees, ss[i], ls[i], ss[i + 1]);
    ContentPersists(sees, ss[i], ls[i]);
    if ss[i].recs[r].invalid {
      InvalidPersists(sees, ss[i], ls[i], r);
    }
  }

  lemma InvalidPersists(sees: Snapshots, s: State, l: Label, r: nat)
    requires Inv(sees, s) && Enabled(sees, s, l) && r < |s.recs| && s.recs[r].invalid
    ensures r < |Next(s, l).recs|
    ensures Next(s, l).recs[r].invalid && Next(s, l).recs[r].next == s.recs[r].next
            && Next(s, l).recs[r].validTo == s.recs[r].validTo
  {
    hide VersionsOK, Known, Adjacent, ExpiryOK, Separate, Ranked, Chain, Leads;
    if l.Fire? || l.Disarm? {
      assert ThreadInv(sees, s, s.threads[l.tid]);
    }
  }

  lemma ContentPersists(sees: Snapshots, s: State, l: Label)
    requires Inv(sees, s) && Enabled(sees, s, l)
    ensures |s.recs| <= |Next(s, l).recs|
    ensures forall r | 0 <= r < |s.recs| ::
              && Next(s, l).recs[r].version == s.recs[r].version
              && Next(s, l).recs[r].deletion == s.recs[r].deletion
              && Next(s, l).recs[r].data == s.recs[r].data
  {
    hide VersionsOK, Known, Adjacent, ExpiryOK, Separate, ThreadInv, Ranked, Chain;
  }

  /** A valid record leaves the list only by being invalidated itself, or when the garbage collection invalidates a
      record above it. */
  lemma OnlyInvalidationUnlinks(sees: Snapshots, ss: seq<State>, ls: seq<Label>, i: nat, r: nat)
    requires Execution(sees, ss, ls) && i < |ls|
    requires WF(ss[i]) && WF(ss[i + 1]) && r in List(ss[i]) && r !in List(ss[i + 1])
    ensures r < |ss[i + 1].recs|
    ensures ss[i + 1].recs[r].invalid
            || ((ls[i].GcExpired? || ls[i].GcDeletion?) && ls[i].rec in List(ss[i])
                && ss[i].recs[r].version < ss[i].recs[ls[i].rec].version)
  {
    ExecutionInv(sees, ss, ls, i);
    assert Step(sees, ss[i], ls[i], ss[i + 1]);
    var s, l := ss[i], ls[i];
    ChainSorted(s.recs, s.head);
    StepList(sees, s, l);
    if l.Replace? || l.Recycle? {
      RenamedKeeps(List(s), l.cur, |s.recs|, r);
    } else if l.GcExpired? || l.GcDeletion? {
      BeforePrefix(List(s), l.rec);
    }
  }

  /** The effect of a step on the list of valid records. */
  lemma StepList(sees: Snapshots, s: State, l: Label)
    requires ReadsOK(sees) && Inv(sees, s) && Enabled(sees, s, l)
    ensures WF(Next(s, l))
    ensures var c, c' := List(s), List(Next(s, l));
            match l
            case Fire(t) => c' == [s.threads[t].elem] + c
            case Replace(_, _, x, _, _) => c' == Renamed(c, x, |s.recs|)
            case Recycle(_, x) => c' == Renamed(c, x, |s.recs|)
            case Remove(_, _, x) => (x !in c ==> c' == c) && (x in c ==> c[0] == x && c' == c[1..])
            case GcExpired(x, _) => c' == Before(c, x)
            case GcDeletion(x, _) => c' == Before(c, x)
            case _ => c' == c
  {
    match l
    case Arm(_, _, _, _, _) => ArmKeepsInv(sees, s, l);
    case Fire(_) => FireKeepsInv(sees, s, l);
    case Disarm(_) => DisarmKeepsInv(sees, s, l);
    case Expire(_) => ExpireKeepsInv(sees, s, l);
    case Seal(_) => SealKeepsInv(sees, s, l);
    case Replace(_, _, _, _, _) => SwapKeepsInv(sees, s, l);
    case Recycle(_, _) => SwapKeepsInv(sees, s, l);
    case Remove(_, _, _) => RemoveList(sees, s, l);
    case Reactivate(_) => ReactivateKeepsInv(sees, s, l);
    case UnlinkHead => UnlinkKeepsInv(sees, s, l);
    case UnlinkNext(_) => UnlinkKeepsInv(sees, s, l);
    case GcExpired(_, _) => CutKeepsInv(sees, s, l);
    case GcDeletion(_, _) => CutKeepsInv(sees, s, l);
    case Start(_) => VersionsKeepInv(sees, s, l);
    case Finish(_) => VersionsKeepInv(sees, s, l);
    case Advance(_) => VersionsKeepInv(sees, s, l);
  }

  // ------------------------------------------------------------------ no lost updates

  /** What a transaction that was read has read is read as well. */
  ghost predicate Transitive(sees: Snapshots) {
    forall v, u, w | sees(v, u) && sees(u, w) :: sees(v, w)
  }

  /** In every run, every version of a key sits directly above a version in its writer's read set. */
  lemma NoLostUpdate(sees: Snapshots, ss: seq<State>, ls: seq<Label>, i: nat, k: nat)
    requires Execution(sees, ss, ls) && i < |ss|
    requires WF(ss[i]) && 0 < k < |List(ss[i])|
    ensures Inside(ss[i].recs, List(ss[i]))
    ensures sees(ss[i].recs[List(ss[i])[k - 1]].version, ss[i].recs[List(ss[i])[k]].version)
  {
    ExecutionInv(sees, ss, ls, i);
  }

  /** With transitive read sets, two transactions that do not see each other never both have a version of the key. */
  lemma {:induction false} WritersSeeEachOther(sees: Snapshots, ss: seq<State>, ls: seq<Label>, i: nat, j: nat, k: nat)
    requires Execution(sees, ss, ls) && Transitive(sees) && i < |ss|
    requires WF(ss[i]) && j < k < |List(ss[i])|
    ensures Inside(ss[i].recs, List(ss[i]))
    ensures sees(ss[i].recs[List(ss[i])[j]].version, ss[i].recs[List(ss[i])[k]].version)
    decreases k
  {
    NoLostUpdate(sees, ss, ls, i, k);
    if j < k - 1 {
      WritersSeeEachOther(sees, ss, ls, i, j, k - 1);
    }
  }

  // ------------------------------------------------------------------ what a step changes for a snapshot

  /** A read is decided above the first record that a reader of everything up to `low` can reach. */
  lemma {:induction false} ReadPrefix(recs: seq<Rec>, c: seq<nat>, n: nat, snapshot: nat -> bool, newest: bool)
    requires Inside(recs, c) && 0 < n <= |c| && snapshot(recs[c[n - 1]].version)
    ensures Inside(recs, c[..n]) && Read(recs, c[..n], snapshot, newest) == Read(recs, c, snapshot, newest)
  {
    if !snapshot(recs[c[0]].version) {
      ReadPrefix(recs, c[1..], n - 1, snapshot, false);
      assert c[1..][..n - 1] == c[..n][1..];
    }
  }

  /** Cutting off a deletion the snapshot can read, and all below it, changes neither result nor error code. */
  lemma {:induction false} ReadDeletion(recs: seq<Rec>, c: seq<nat>, n: nat, snapshot: nat -> bool, newest: bool)
    requires Inside(recs, c) && n < |c| && recs[c[n]].deletion && snapshot(recs[c[n]].version)
    ensures Inside(recs, c[..n]) && Read(recs, c[..n], snapshot, newest) == Read(recs, c, snapshot, newest)
  {
    if n > 0 && !snapshot(recs[c[0]].version) {
      ReadDeletion(recs, c[1..], n - 1, snapshot, false);
      assert c[1..][..n - 1] == c[..n][1..];
    }
  }

  /** Reads depend only on version, kind and data of the records. */
  lemma {:induction false} ReadSame(recs: seq<Rec>, recs': seq<Rec>, c: seq<nat>, c': seq<nat>, snapshot: nat -> bool,
                                    newest: bool)
    requires Inside(recs, c) && Inside(recs', c') && |c| == |c'|
    requires forall k | 0 <= k < |c| ::
               recs'[c'[k]].version == recs[c[k]].version && recs'[c'[k]].deletion == recs[c[k]].deletion
               && recs'[c'[k]].data == recs[c[k]].data
    ensures Read(recs', c', snapshot, newest) == Read(recs, c, snapshot, newest)
  {
    if c != [] {
      ReadSame(recs, recs', c[1..], c'[1..], snapshot, false);
    }
  }

  /** The result of a lookup of the key in a state. */
  function Lookup(s: State, snapshot: nat -> bool): Outcome
    requires WF(s) && Inside(s.recs, List(s))
  {
    Read(s.recs, List(s), snapshot, true)
  }

  predicate ReadsBelow(snapshot: nat -> bool, low: nat) {
    forall u | 0 <= u <= low :: snapshot(u)
  }

  /** The steps that write, replace or revert a version of the key. */
  predicate Writes(l: Label) {
    l.Fire? || l.Replace? || l.Remove?
  }

  /** An expired record is only reached through a record that everybody can read. */
  lemma ExpiredIsShadowed(sees: Snapshots, s: State, l: Label, snapshot: nat -> bool)
    requires Inv(sees, s) && Enabled(sees, s, l) && l.GcExpired? && l.rec in List(s)
    requires ReadsBelow(snapshot, s.low)
    ensures var n := |Before(List(s), l.rec)|;
            0 < n <= |List(s)| && snapshot(s.recs[List(s)[n - 1]].version)
  {
    var c := List(s);
    BeforePrefix(c, l.rec);
    var n := |Before(c, l.rec)|;
    var u := s.recs[l.rec].validTo.version;
    assert ExpiryOK(s, n);
    forall t | t in s.threads ensures !Awaits(s, s.threads[t], l.rec, u) {
      assert ThreadOK(s, s.threads[t]) && ThreadInv(sees, s, s.threads[t]);
    }
  }

  /** A lookup in the cut list reads the part of the old one before the cut. */
  lemma CutLookup(s: State, s': State, rec: nat, snapshot: nat -> bool)
    requires WF(s) && WF(s') && Inside(s.recs, List(s)) && Inside(s'.recs, List(s')) && List(s') == Before(List(s), rec)
    requires |s'.recs| == |s.recs|
    requires forall r | 0 <= r < |s.recs| ::
               s'.recs[r].version == s.recs[r].version && s'.recs[r].deletion == s.recs[r].deletion
               && s'.recs[r].data == s.recs[r].data
    ensures Inside(s.recs, Before(List(s), rec)) && Lookup(s', snapshot) == Read(s.recs, Before(List(s), rec), snapshot, true)
  {
    ReadSame(s.recs, s'.recs, List(s'), List(s'), snapshot, true);
  }

  lemma CutKeepsLookup(sees: Snapshots, s: State, l: Label, snapshot: nat -> bool)
    requires Inv(sees, s) && Enabled(sees, s, l) && (l.GcExpired? || l.GcDeletion?)
    requires ReadsBelow(snapshot, s.low)
    ensures Inv(sees, Next(s, l)) && Lookup(Next(s, l), snapshot) == Lookup(s, snapshot)
  {
    hide VersionsOK, Known, Adjacent, Separate, ThreadInv, ExpiryOK;
    var s', c := Next(s, l), List(s);
    CutKeepsInv(sees, s, l);
    CutLookup(s, s', l.rec, snapshot);
    BeforePrefix(c, l.rec);
    var n := |Before(c, l.rec)|;
    assert Before(c, l.rec) == c[..n];
    if l.rec !in c {
      assert c[..n] == c;
    } else if l.GcExpired? {
      ExpiredIsShadowed(sees, s, l, snapshot);
      ReadPrefix(s.recs, c, n, snapshot, true);
    } else {
      ReadDeletion(s.recs, c, n, snapshot, true);
    }
  }

  lemma StepKeepsLookup(sees: Snapshots, s: State, l: Label, snapshot: nat -> bool)
    requires ReadsOK(sees) && Inv(sees, s) && Enabled(sees, s, l) && !Writes(l)
    requires ReadsBelow(snapshot, s.low)
    ensures Inv(sees, Next(s, l)) && Lookup(Next(s, l), snapshot) == Lookup(s, snapshot)
  {
    if l.GcExpired? || l.GcDeletion? {
      CutKeepsLookup(sees, s, l, snapshot);
    } else {
      NextKeepsInv(sees, s, l);
      StepList(sees, s, l);
      ContentPersists(sees, s, l);
      ReadSame(s.recs, Next(s, l).recs, List(s), List(Next(s, l)), snapshot, true);
    }
  }

  /** For every snapshot that reads all versions up to the lowest active one, every step of the garbage collection and
      every clean-up step leaves the result of a lookup unchanged, including the error code and the newest flag. */
  lemma MaintenanceKeepsLookup(sees: Snapshots, ss: seq<State>, ls: seq<Label>, i: nat, snapshot: nat -> bool)
    requires Execution(sees, ss, ls) && i < |ls| && !Writes(ls[i])
    requires ReadsBelow(snapshot, ss[i].low)
    ensures WF(ss[i]) && Inside(ss[i].recs, List(ss[i])) && WF(ss[i + 1]) && Inside(ss[i + 1].recs, List(ss[i + 1]))
    ensures Lookup(ss[i + 1], snapshot) == Lookup(ss[i], snapshot)
  {
    ExecutionInv(sees, ss, ls, i);
    assert Step(sees, ss[i], ls[i], ss[i + 1]);
    StepKeepsLookup(sees, ss[i], ls[i], snapshot);
  }

  // ------------------------------------------------------------------ isolation

  /** The tuple a lookup delivers, if any. */
  function Visible(o: Outcome): Option<(nat, seq<int>)> {
    if o.Tuple? then Some((o.version, o.data)) else None
  }

  function Writer(s: State, l: Label): nat
    requires WF(s) && Writes(l)
    requires l.Fire? ==> l.tid in s.threads && s.threads[l.tid].Armed?
  {
    if l.Fire? then s.recs[s.threads[l.tid].elem].version else l.version
  }

  lemma ReadNewest(recs: seq<Rec>, c: seq<nat>, snapshot: nat -> bool)
    requires Inside(recs, c)
    ensures Visible(Read(recs, c, snapshot, true)) == Visible(Read(recs, c, snapshot, false))
  {
  }

  /** A write or revert is invisible to every snapshot that does not contain the writer's version. */
  lemma ForeignWriteIsInvisible(sees: Snapshots, ss: seq<State>, ls: seq<Label>, i: nat, snapshot: nat -> bool)
    requires Execution(sees, ss, ls) && i < |ls| && Writes(ls[i])
    requires WF(ss[i]) && Enabled(sees, ss[i], ls[i]) && !snapshot(Writer(ss[i], ls[i]))
    ensures Inside(ss[i].recs, List(ss[i])) && WF(ss[i + 1]) && Inside(ss[i + 1].recs, List(ss[i + 1]))
    ensures Visible(Lookup(ss[i + 1], snapshot)) == Visible(Lookup(ss[i], snapshot))
  {
    hide VersionsOK, Known, Adjacent, Separate, ThreadInv, ExpiryOK;
    ExecutionInv(sees, ss, ls, i);
    ExecutionInv(sees, ss, ls, i + 1);
    assert Step(sees, ss[i], ls[i], ss[i + 1]);
    var s, s', l := ss[i], ss[i + 1], ls[i];
    StepList(sees, s, l);
    ContentPersists(sees, s, l);
    var c, c' := List(s), List(s');
    if l.Fire? {
      assert c'[1..] == c;
      ReadSame(s.recs, s'.recs, c, c, snapshot, false);
      ReadNewest(s.recs, c, snapshot);
    } else if l.Remove? && l.cur in c {
      assert c' == c[1..];
      ReadSame(s.recs, s'.recs, c', c', snapshot, false);
      ReadNewest(s'.recs, c', snapshot);
    } else if l.Remove? {
      ReadSame(s.recs, s'.recs, c, c, snapshot, true);
    } else {
      ReadHidden(s.recs, s'.recs, c, l.cur, |s.recs|, snapshot, true);
    }
  }

  lemma {:induction false} ReadHidden(recs: seq<Rec>, recs': seq<Rec>, c: seq<nat>, x: nat, y: nat,
                                      snapshot: nat -> bool, newest: bool)
    requires Inside(recs, c) && Inside(recs', Renamed(c, x, y)) && x < |recs| <= y < |recs'|
    requires recs'[y].version == recs[x].version && !snapshot(recs[x].version)
    requires forall r | 0 <= r < |recs| ::
               recs'[r].version == recs[r].version && recs'[r].deletion == recs[r].deletion && recs'[r].data == recs[r].data
    ensures Read(recs', Renamed(c, x, y), snapshot, newest) == Read(recs, c, snapshot, newest)
  {
    if c != [] {
      assert Renamed(c, x, y)[1..] == Renamed(c[1..], x, y);
      ReadHidden(recs, recs', c[1..], x, y, snapshot, false);
    }
  }

  /** A step that is none of the snapshot's business. */
  ghost predicate Foreign(sees: Snapshots, s: State, l: Label, snapshot: nat -> bool) {
    && ReadsBelow(snapshot, s.low)
    && WF(s) && Enabled(sees, s, l)
    && (Writes(l) ==> !snapshot(Writer(s, l)))
  }

  /** Snapshot isolation over a whole run: between two states, whatever other transactions write, overwrite, revert
      or finish and whatever the garbage collection removes, a snapshot that contains none of the writers' versions
      and all versions up to the lowest active one keeps reading the same tuple, or no tuple. */
  lemma {:induction false} SnapshotIsStable(sees: Snapshots, ss: seq<State>, ls: seq<Label>, i: nat, j: nat,
                                            snapshot: nat -> bool)
    requires Execution(sees, ss, ls) && i <= j < |ss|
    requires forall k | i <= k < j :: Foreign(sees, ss[k], ls[k], snapshot)
    ensures WF(ss[i]) && Inside(ss[i].recs, List(ss[i])) && WF(ss[j]) && Inside(ss[j].recs, List(ss[j]))
    ensures Visible(Lookup(ss[j], snapshot)) == Visible(Lookup(ss[i], snapshot))
    decreases j
  {
    hide VersionsOK, Known, Adjacent, Separate, ThreadInv, ExpiryOK, Enabled, Step, ReadsBelow;
    ExecutionInv(sees, ss, ls, i);
    ExecutionInv(sees, ss, ls, j);
    if i < j {
      SnapshotIsStable(sees, ss, ls, i, j - 1, snapshot);
      assert Foreign(sees, ss[j - 1], ls[j - 1], snapshot);
      if Writes(ls[j - 1]) {
        ForeignWriteIsInvisible(sees, ss, ls, j - 1, snapshot);
      } else {
        MaintenanceKeepsLookup(sees, ss, ls, j - 1, snapshot);
      }
    }
  }
}
