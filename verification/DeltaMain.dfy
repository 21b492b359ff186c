/**
 The update log of the delta-main store (deltamain/Record.cpp, deltamain/Record.hpp, deltamain/Table.cpp,
 deltamain/Table.hpp): a base record with a chain of update records on top of it.

 A chain is the sequence of update records reached over the `previous` pointers, newest first.  It is not sorted:
 reverts are records of their own.  `UpdateRecordIterator` reads it in one pass.
 */
module DeltaMain {
  import opened Common

  datatype Kind = Data | Delete | Revert

  datatype Entry = Entry(version: nat, kind: Kind, data: seq<int>)

  /** The largest 64-bit number: the initial lowest version of an iterator.  Versions are smaller. */
  const MAX: nat := 0xFFFF_FFFF_FFFF_FFFF

  predicate BelowMax(c: seq<Entry>) {
    forall i | 0 <= i < |c| :: c[i].version < MAX
  }

  /** The elements of a base record, newest first: one for an insert record, one or more for a main record. */
  predicate BaseOK(base: seq<Entry>) {
    && base != [] && BelowMax(base)
    && (forall i | 0 <= i < |base| :: !base[i].kind.Revert?)
    && (forall i, j | 0 <= i < j < |base| :: base[j].version < base[i].version)
  }

  // ------------------------------------------------------------------ what the iterator does

  /** The records delivered from the rest of a chain, and the lowest version met, once versions `low` and above are
      settled; the base record has version `b`. */
  function Rest(c: seq<Entry>, b: nat, low: nat): (seq<Entry>, nat) {
    if c == [] || c[0].version < b then ([], low)
    else if c[0].version >= low then Rest(c[1..], b, low)
    else
      var r := if c[0].version == b then ([], b) else Rest(c[1..], b, c[0].version);
      if c[0].kind.Revert? then r else ([c[0]] + r.0, r.1)
  }

  /** What is still to come after record `i` of a chain has been considered. */
  function After(c: seq<Entry>, b: nat, i: nat): (seq<Entry>, nat)
    requires i < |c|
  {
    if c[i].version == b then ([], b) else Rest(c[i + 1..], b, c[i].version)
  }

  /** The records an iterator over the whole chain delivers, and its final lowest version. */
  function Iterate(c: seq<Entry>, b: nat): (seq<Entry>, nat) {
    if c == [] then ([], MAX)
    else if c[0].kind.Revert? then After(c, b, 0)
    else ([c[0]] + After(c, b, 0).0, After(c, b, 0).1)
  }

  class UpdateRecordIterator {
    const chain: seq<Entry>
    const base: nat
    var pos: nat
    var lowest: nat
    /** The records delivered so far, including the current one. */
    ghost var delivered: seq<Entry>

    predicate Done()
      reads this
    {
      pos >= |chain|
    }

    /** What was delivered and what is still to come is what the whole chain delivers. */
    ghost predicate Valid()
      reads this
    {
      && pos <= |chain|
      && (!Done() ==> !chain[pos].kind.Revert? && lowest == chain[pos].version
                      && delivered != [] && delivered[|delivered| - 1] == chain[pos])
      && Iterate(chain, base) ==
           if Done() then (delivered, lowest)
           else (delivered + After(chain, base, pos).0, After(chain, base, pos).1)
    }

    constructor (chain: seq<Entry>, base: nat)
      ensures Valid() && this.chain == chain && this.base == base
      ensures delivered == if Done() then [] else [chain[pos]]
    {
      this.chain := chain;
      this.base := base;
      pos := 0;
      lowest := MAX;
      delivered := [];
      new;
      if |chain| > 0 {
        lowest := chain[0].version;
        if chain[0].kind.Revert? {
          pos, lowest := Forward(chain, base, 0);
        }
        if pos < |chain| {
          delivered := [chain[pos]];
        }
      }
    }

    /** Advances over reverted and hidden records to the next record, or to the end. */
    method Next()
      requires Valid() && !Done()
      modifies this
      ensures Valid()
      ensures delivered == old(delivered) + if Done() then [] else [chain[pos]]
      ensures !Done() ==> pos > old(pos) && lowest < old(lowest)
      ensures Done() ==> After(chain, base, old(pos)) == ([], lowest)
    {
      ghost var rest := After(chain, base, pos).0;
      pos, lowest := Forward(chain, base, pos);
      if pos < |chain| {
        assert delivered + rest == (delivered + [chain[pos]]) + After(chain, base, pos).0;
        delivered := delivered + [chain[pos]];
      } else {
        assert delivered + rest == delivered;
      }
    }

    /** The loop of next(), starting behind record `start`. */
    static method Forward(chain: seq<Entry>, base: nat, start: nat) returns (pos: nat, lowest: nat)
      requires start < |chain|
      ensures start < pos <= |chain|
      ensures pos == |chain| ==> After(chain, base, start) == ([], lowest)
      ensures pos < |chain| ==>
                && !chain[pos].kind.Revert? && lowest == chain[pos].version < chain[start].version
                && After(chain, base, start) == ([chain[pos]] + After(chain, base, pos).0, After(chain, base, pos).1)
    {
      pos, lowest := start, chain[start].version;
      while true
        invariant start <= pos < |chain| && lowest == chain[pos].version <= chain[start].version
        invariant pos > start ==> lowest < chain[start].version
        invariant After(chain, base, start) == After(chain, base, pos)
        decreases |chain| - pos
      {
        if chain[pos].version == base {
          return |chain|, lowest;
        }
        pos := Skip(chain, base, pos + 1, lowest);
        if pos == |chain| || chain[pos].version < base {
          return |chain|, lowest;
        }
        assert chain[pos..][1..] == chain[pos + 1..];
        lowest := chain[pos].version;
        if !chain[pos].kind.Revert? {
          return;
        }
      }
    }

    /** The inner loop: passes over the records that a lower version hides. */
    static method Skip(chain: seq<Entry>, base: nat, start: nat, lowest: nat) returns (pos: nat)
      requires start <= |chain|
      ensures start <= pos <= |chain|
      ensures pos == |chain| || chain[pos].version < base || chain[pos].version < lowest
      ensures Rest(chain[start..], base, lowest) == Rest(chain[pos..], base, lowest)
    {
      pos := start;
      while pos < |chain| && chain[pos].version >= base && chain[pos].version >= lowest
        invariant start <= pos <= |chain|
        invariant Rest(chain[start..], base, lowest) == Rest(chain[pos..], base, lowest)
      {
        assert chain[pos..][1..] == chain[pos + 1..];
        pos := pos + 1;
      }
    }
  }

  // ------------------------------------------------------------------ lookups

  /** The base elements that no update record hides. */
  function Older(base: seq<Entry>, low: nat): seq<Entry> {
    if base == [] then [] else if base[0].version >= low then Older(base[1..], low) else base
  }

  /** All versions a lookup considers, newest first: the iterator's records, then the base elements. */
  function View(c: seq<Entry>, base: seq<Entry>): seq<Entry>
    requires base != []
  {
    var r := Iterate(c, base[0].version);
    r.0 + Older(base, r.1)
  }

  function Read(view: seq<Entry>, snapshot: nat -> bool, newest: bool): Outcome {
    if view == [] then Missing(newest)
    else if !snapshot(view[0].version) then Read(view[1..], snapshot, false)
    else if view[0].kind.Data? then Tuple(view[0].data, view[0].version, newest)
    else Missing(newest)
  }

  /** The first version that the snapshot reads decides a lookup, and the error code says whether the newest one was read. */
  lemma {:induction false} ReadIsFirst(view: seq<Entry>, snapshot: nat -> bool, newest: bool, k: nat)
    requires k <= |view| && (forall i | 0 <= i < k :: !snapshot(view[i].version))
    requires k < |view| ==> snapshot(view[k].version)
    ensures var flag := newest && k == 0;
            Read(view, snapshot, newest) ==
              if k < |view| && view[k].kind == Data then Tuple(view[k].data, view[k].version, flag)
              else if flag then NotFound else NotInSnapshot
  {
    if k > 0 {
      ReadIsFirst(view[1..], snapshot, false, k - 1);
    }
  }

  lemma {:induction false} ReadConcat(a: seq<Entry>, b: seq<Entry>, snapshot: nat -> bool, newest: bool)
    requires forall i | 0 <= i < |a| :: !snapshot(a[i].version)
    ensures Read(a + b, snapshot, newest) == Read(b, snapshot, newest && a == [])
  {
    if a == [] {
      assert a + b == b;
    } else {
      assert (a + b)[1..] == a[1..] + b;
      ReadConcat(a[1..], b, snapshot, false);
    }
  }

  /** The lookup stops at the first record it may read. */
  lemma ReadHit(d: seq<Entry>, after: seq<Entry>, older: seq<Entry>, snapshot: nat -> bool)
    requires d != [] && (forall i | 0 <= i < |d| - 1 :: !snapshot(d[i].version)) && snapshot(d[|d| - 1].version)
    ensures var e, newest := d[|d| - 1], |d| == 1;
            Read((d + after) + older, snapshot, true)
            == if e.kind.Data? then Tuple(e.data, e.version, newest) else Missing(newest)
  {
    var before, e := d[..|d| - 1], d[|d| - 1];
    var rest := [e] + (after + older);
    assert (d + after) + older == before + rest;
    ReadConcat(before, rest, snapshot, true);
  }

  /** internalGet: first the update records, then the base elements that they do not hide. */
  method InternalGet(c: seq<Entry>, base: seq<Entry>, snapshot: nat -> bool) returns (o: Outcome)
    requires base != []
    ensures o == Read(View(c, base), snapshot, true)
  {
    hide Older, Rest, After, Read;
    ghost var r := Iterate(c, base[0].version);
    var newest := true;
    var it := new UpdateRecordIterator(c, base[0].version);
    while !it.Done()
      invariant it.Valid() && it.chain == c && it.base == base[0].version && fresh(it)
      invariant it.delivered == [] ==> it.Done()
      invariant var n := if it.Done() then |it.delivered| else |it.delivered| - 1;
                && (forall i | 0 <= i < n :: !snapshot(it.delivered[i].version))
                && newest == (n == 0)
      decreases |c| - it.pos
    {
      var e := c[it.pos];
      if snapshot(e.version) {
        ReadHit(it.delivered, After(c, base[0].version, it.pos).0, Older(base, r.1), snapshot);
        if e.kind.Delete? {
          return Missing(newest);
        }
        return Tuple(e.data, e.version, newest);
      }
      newest := false;
      it.Next();
    }
    ReadConcat(it.delivered, Older(base, it.lowest), snapshot, true);
    o := GetBase(base, it.lowest, snapshot, newest);
  }

  /** The loop over the elements that the update log has overwritten, common to get, canUpdate and collect. */
  method SkipHidden(base: seq<Entry>, highest: nat) returns (i: nat)
    ensures i <= |base| && Older(base, highest) == base[i..]
  {
    i := 0;
    while i < |base| && base[i].version >= highest
      invariant i <= |base| && Older(base, highest) == Older(base[i..], highest)
    {
      assert base[i..][1..] == base[i + 1..];
      i := i + 1;
    }
  }

  /** RowStoreRecordImpl::get; an insert record is a base record of one element. */
  method GetBase(base: seq<Entry>, highest: nat, snapshot: nat -> bool, isNewest: bool) returns (o: Outcome)
    ensures o == Read(Older(base, highest), snapshot, isNewest)
  {
    var newest := isNewest;
    var i := SkipHidden(base, highest);
    while i < |base|
      invariant i <= |base| && Read(Older(base, highest), snapshot, isNewest) == Read(base[i..], snapshot, newest)
    {
      assert base[i..][1..] == base[i + 1..];
      if snapshot(base[i].version) {
        if !base[i].kind.Data? {
          return Missing(newest);
        }
        return Tuple(base[i].data, base[i].version, newest);
      }
      newest := false;
      i := i + 1;
    }
    return Missing(newest);
  }

  // ------------------------------------------------------------------ the unsorted chain as a list of versions

  /** The records that remain when, newest first, every record hides the records of its own and larger versions that
      follow it, and a revert shows nothing itself. */
  function Visible(c: seq<Entry>, low: nat): seq<Entry> {
    if c == [] then []
    else if c[0].version >= low then Visible(c[1..], low)
    else if c[0].kind.Revert? then Visible(c[1..], c[0].version)
    else [c[0]] + Visible(c[1..], c[0].version)
  }

  /** The smallest version of a chain, if below `low`. */
  function Lowest(c: seq<Entry>, low: nat): nat {
    if c == [] then low else Lowest(c[1..], if c[0].version < low then c[0].version else low)
  }

  predicate AllAbove(c: seq<Entry>, b: nat) {
    forall i | 0 <= i < |c| :: b <= c[i].version
  }

  lemma {:induction false} HiddenByLow(c: seq<Entry>, low: nat)
    requires AllAbove(c, low)
    ensures Visible(c, low) == [] && Lowest(c, low) == low
  {
    if c != [] {
      HiddenByLow(c[1..], low);
    }
  }

  lemma {:induction false} RestIsVisible(c: seq<Entry>, b: nat, low: nat)
    requires AllAbove(c, b) && b < low
    ensures Rest(c, b, low) == (Visible(c, low), Lowest(c, low))
  {
    if c != [] {
      if c[0].version >= low {
        RestIsVisible(c[1..], b, low);
      } else if c[0].version == b {
        HiddenByLow(c[1..], b);
      } else {
        RestIsVisible(c[1..], b, c[0].version);
      }
    }
  }

  /** While no record is older than the base, one pass delivers exactly the visible records. */
  lemma IterateIsVisible(c: seq<Entry>, b: nat)
    requires AllAbove(c, b) && BelowMax(c)
    ensures Iterate(c, b) == (Visible(c, MAX), Lowest(c, MAX))
  {
    if c != [] {
      if c[0].version == b {
        HiddenByLow(c[1..], b);
      } else {
        RestIsVisible(c[1..], b, c[0].version);
      }
    }
  }

  lemma {:induction false} VisibleConcat(a: seq<Entry>, c: seq<Entry>, low: nat)
    ensures Visible(a + c, low) == Visible(a, low) + Visible(c, Lowest(a, low))
    ensures Lowest(a + c, low) == Lowest(c, Lowest(a, low))
  {
    if a == [] {
      assert a + c == c && Visible(a, low) + Visible(c, low) == Visible(c, low);
    } else {
      assert (a + c)[1..] == a[1..] + c;
      var low' := if a[0].version < low then a[0].version else low;
      VisibleConcat(a[1..], c, low');
    }
  }

  lemma {:induction false} OlderIsVisible(base: seq<Entry>, low: nat)
    requires forall i | 0 <= i < |base| :: !base[i].kind.Revert?
    requires forall i, j | 0 <= i < j < |base| :: base[j].version < base[i].version
    ensures Visible(base, low) == Older(base, low)
  {
    if base != [] {
      if base[0].version >= low {
        OlderIsVisible(base[1..], low);
      } else {
        OlderIsVisible(base[1..], base[0].version);
        if |base| > 1 {
          assert base[1..][0].version < base[0].version;
        }
        assert [base[0]] + base[1..] == base;
      }
    }
  }

  lemma ViewIsVisible(c: seq<Entry>, base: seq<Entry>)
    requires BaseOK(base) && AllAbove(c, base[0].version) && BelowMax(c)
    ensures View(c, base) == Visible(c + base, MAX)
  {
    IterateIsVisible(c, base[0].version);
    VisibleConcat(c, base, MAX);
    OlderIsVisible(base, Lowest(c, MAX));
  }

  /** Whatever the chain looks like, the visible versions strictly decrease. */
  lemma {:induction false} VisibleSorted(c: seq<Entry>, low: nat)
    ensures forall i | 0 <= i < |Visible(c, low)| :: Visible(c, low)[i].version < low && !Visible(c, low)[i].kind.Revert?
    ensures forall i, j | 0 <= i < j < |Visible(c, low)| :: Visible(c, low)[j].version < Visible(c, low)[i].version
  {
    if c != [] {
      if c[0].version >= low {
        VisibleSorted(c[1..], low);
      } else {
        VisibleSorted(c[1..], c[0].version);
      }
    }
  }

  // ------------------------------------------------------------------ writes and reverts

  datatype Code = Ok | NotSeen | InvalidWrite

  /** canUpdate as its documentation has it: the newest visible version decides. */
  function MayWrite(view: seq<Entry>, expected: Kind, snapshot: nat -> bool): Code {
    if view == [] then (if expected.Delete? then Ok else InvalidWrite)
    else if !snapshot(view[0].version) then NotSeen
    else if view[0].kind == expected then Ok else InvalidWrite
  }

  /** What the answer of a write check means, in terms of the newest visible version and of the writer's own lookup: a
      newest version that the writer does not see refuses the write; otherwise an insert is allowed exactly if the lookup
      finds no tuple, and an update or removal exactly if it finds that version. */
  predicate Decides(ec: Code, expected: Kind, view: seq<Entry>, snapshot: nat -> bool) {
    var seen, found := view == [] || snapshot(view[0].version), Read(view, snapshot, true);
    && (ec == NotSeen <==> !seen)
    && (expected.Delete? ==> (ec == Ok <==> seen && !found.Tuple?))
    && (expected.Data? ==> (ec == Ok <==> seen && found.Tuple? && found.version == view[0].version))
  }

  predicate NoReverts(c: seq<Entry>) {
    forall i | 0 <= i < |c| :: !c[i].kind.Revert?
  }

  lemma {:induction false} RestHasNoReverts(c: seq<Entry>, b: nat, low: nat)
    ensures NoReverts(Rest(c, b, low).0)
  {
    if c != [] && c[0].version >= b {
      RestHasNoReverts(c[1..], b, low);
      RestHasNoReverts(c[1..], b, c[0].version);
    }
  }

  lemma {:induction false} OlderHasNoReverts(base: seq<Entry>, low: nat)
    requires NoReverts(base)
    ensures NoReverts(Older(base, low))
  {
    if base != [] {
      OlderHasNoReverts(base[1..], low);
    }
  }

  lemma IterateHasNoReverts(c: seq<Entry>, b: nat)
    ensures NoReverts(Iterate(c, b).0)
  {
    if c != [] {
      RestHasNoReverts(c[1..], b, c[0].version);
    }
  }

  lemma ViewHasNoReverts(c: seq<Entry>, base: seq<Entry>)
    requires base != [] && NoReverts(base)
    ensures NoReverts(View(c, base))
  {
    IterateHasNoReverts(c, base[0].version);
    OlderHasNoReverts(base, Iterate(c, base[0].version).1);
  }

  /** canUpdate: asks the iterator first and the base record only if the iterator delivers nothing. */
  method CanUpdate(c: seq<Entry>, base: seq<Entry>, expected: Kind, snapshot: nat -> bool) returns (ec: Code)
    requires base != []
    ensures ec == MayWrite(View(c, base), expected, snapshot)
    ensures NoReverts(base) ==> Decides(ec, expected, View(c, base), snapshot)
  {
    if NoReverts(base) {
      ViewHasNoReverts(c, base);
    }
    var it := new UpdateRecordIterator(c, base[0].version);
    if !it.Done() {
      var e := c[it.pos];
      assert View(c, base)[0] == e;
      return if !snapshot(e.version) then NotSeen else if e.kind == expected then Ok else InvalidWrite;
    }
    assert View(c, base) == Older(base, it.lowest);
    ec := BaseCanUpdate(base, it.lowest, expected, snapshot);
  }

  /** RowStoreRecord::canUpdate; an insert record is a base record of one element. */
  method BaseCanUpdate(base: seq<Entry>, highest: nat, expected: Kind, snapshot: nat -> bool) returns (ec: Code)
    ensures ec == MayWrite(Older(base, highest), expected, snapshot)
    ensures NoReverts(base) ==> Decides(ec, expected, Older(base, highest), snapshot)
  {
    if NoReverts(base) {
      OlderHasNoReverts(base, highest);
    }
    var i := SkipHidden(base, highest);
    if i >= |base| {
      return if expected.Delete? then Ok else InvalidWrite;
    }
    return if !snapshot(base[i].version) then NotSeen else if base[i].kind == expected then Ok else InvalidWrite;
  }

  /** What internalRevert does: nothing, append a revert record, or refuse. */
  datatype Undo = Nothing | Append | Refuse

  /** The first version of the list that is not above `version` is `version`. */
  predicate Holds(list: seq<Entry>, version: nat) {
    list != [] && (list[0].version == version || (list[0].version > version && Holds(list[1..], version)))
  }

  lemma {:induction false} HoldsExactly(list: seq<Entry>, version: nat)
    requires forall i, j | 0 <= i < j < |list| :: list[j].version <= list[i].version
    ensures Holds(list, version) <==> exists i | 0 <= i < |list| :: list[i].version == version
  {
    if list != [] && list[0].version != version {
      var t := list[1..];
      HoldsExactly(t, version);
      assert forall i | 1 <= i < |list| :: list[i] == t[i - 1];
    }
  }

  /** The decision of one list of versions on its own. */
  function UndoIn(list: seq<Entry>, version: nat): Undo {
    if !Holds(list, version) then Nothing else if list[0].version == version then Append else Refuse
  }

  /** On a sorted list: append if the newest version is the transaction's own, refuse if its version is an older one, and
      nothing to do if it has none. */
  lemma UndoMeans(list: seq<Entry>, version: nat)
    requires forall i, j | 0 <= i < j < |list| :: list[j].version <= list[i].version
    ensures UndoIn(list, version) == Append <==> list != [] && list[0].version == version
    ensures UndoIn(list, version) == Refuse <==>
              list != [] && list[0].version != version && exists i | 0 < i < |list| :: list[i].version == version
    ensures UndoIn(list, version) == Nothing <==> forall i | 0 <= i < |list| :: list[i].version != version
  {
    HoldsExactly(list, version);
  }

  /** The update log decides alone if it delivers anything; an insert record never refuses. */
  function Undoing(c: seq<Entry>, base: seq<Entry>, insert: bool, version: nat): Undo
    requires base != []
  {
    var r := Iterate(c, base[0].version);
    var u := UndoIn(if r.0 != [] then r.0 else Older(base, r.1), version);
    if r.0 == [] && insert && u.Refuse? then Nothing else u
  }

  /** The versions that decide a revert: those of the update log, or those of the record if the log shows nothing. */
  function Deciding(c: seq<Entry>, base: seq<Entry>): nat
    requires base != []
  {
    var n := |Iterate(c, base[0].version).0|;
    if n > 0 then n else |View(c, base)|
  }

  /** A transaction reverts its own version exactly if a lookup finds it as the newest one; the revert is refused exactly if
      it is found further down among the deciding versions. */
  lemma UndoingMeans(c: seq<Entry>, base: seq<Entry>, insert: bool, version: nat)
    requires BaseOK(base) && (insert ==> |base| == 1) && AllAbove(c, base[0].version) && BelowMax(c)
    ensures Deciding(c, base) <= |View(c, base)|
    ensures var v := View(c, base);
            && (Undoing(c, base, insert, version) == Append <==> v != [] && v[0].version == version)
            && (Undoing(c, base, insert, version) == Refuse <==>
                  v != [] && v[0].version != version && exists i | 0 < i < Deciding(c, base) :: v[i].version == version)
  {
    hide UndoIn, Iterate, Older, Visible, Lowest, BelowMax, AllAbove, Holds;
    var r := Iterate(c, base[0].version);
    IterateIsVisible(c, base[0].version);
    VisibleSorted(c, MAX);
    OlderSorted(base, r.1);
    if r.0 != [] {
      UndoInFront(r.0, Older(base, r.1), version);
    } else {
      UndoMeans(Older(base, r.1), version);
      assert View(c, base) == Older(base, r.1);
    }
  }

  lemma UndoInFront(a: seq<Entry>, b: seq<Entry>, version: nat)
    requires a != [] && forall i, j | 0 <= i < j < |a| :: a[j].version < a[i].version
    ensures var v := a + b;
            && (UndoIn(a, version) == Append <==> v[0].version == version)
            && (UndoIn(a, version) == Refuse <==> v[0].version != version && exists i | 0 < i < |a| :: v[i].version == version)
  {
    UndoMeans(a, version);
    assert forall i | 0 <= i < |a| :: (a + b)[i] == a[i];
  }

  lemma {:induction false} OlderSorted(base: seq<Entry>, low: nat)
    requires forall i, j | 0 <= i < j < |base| :: base[j].version < base[i].version
    ensures |Older(base, low)| <= |base|
    ensures forall i, j | 0 <= i < j < |Older(base, low)| :: Older(base, low)[j].version < Older(base, low)[i].version
  {
    if base != [] {
      OlderSorted(base[1..], low);
    }
  }

  /** internalRevert up to its compare-and-swap: it appends a revert record exactly if the newest visible version is the
      transaction's own.  `handled` is its result: a base record without need for a revert passes the key on to the
      next table unless it refuses. */
  method InternalRevert(c: seq<Entry>, base: seq<Entry>, insert: bool, version: nat) returns (u: Undo, handled: bool)
    requires base != [] && (insert ==> |base| == 1)
    ensures u == Undoing(c, base, insert, version)
    ensures u.Append? <==> View(c, base) != [] && View(c, base)[0].version == version
    ensures handled <==> Iterate(c, base[0].version).0 != [] || !u.Nothing?
  {
    ghost var r := Iterate(c, base[0].version);
    var it := new UpdateRecordIterator(c, base[0].version);
    if it.Done() {
      assert View(c, base) == Older(base, it.lowest);
      u := BaseCanRevert(base, insert, it.lowest, version);
      return u, !u.Nothing?;
    }
    assert r.0 == [c[it.pos]] + After(c, base[0].version, it.pos).0 && View(c, base)[0] == c[it.pos];
    if c[it.pos].version == version {
      return Append, true;
    }
    var refuse := SearchUpdates(c, base[0].version, version);
    return if refuse then Refuse else Nothing, true;
  }

  /** The loop of internalRevert over the update log. */
  method SearchUpdates(c: seq<Entry>, b: nat, version: nat) returns (found: bool)
    ensures found <==> Holds(Iterate(c, b).0, version)
  {
    ghost var all := Iterate(c, b).0;
    var it := new UpdateRecordIterator(c, b);
    assert !it.Done() ==> all == [c[it.pos]] + After(c, b, it.pos).0;
    while !it.Done()
      invariant it.Valid() && it.chain == c && it.base == b && fresh(it)
      invariant Holds(all, version) == (!it.Done() && Holds([c[it.pos]] + After(c, b, it.pos).0, version))
      decreases |c| - it.pos
    {
      ghost var rest, before := After(c, b, it.pos).0, it.delivered;
      assert ([c[it.pos]] + rest)[1..] == rest;
      if c[it.pos].version <= version {
        return c[it.pos].version == version;
      }
      it.Next();
      if it.Done() {
        Advanced(before, rest, [], [], all);
      } else {
        Advanced(before, rest, [c[it.pos]], After(c, b, it.pos).0, all);
      }
    }
    return false;
  }

  /** What was still to come is what one more step has delivered and what is to come after it. */
  lemma Advanced(before: seq<Entry>, rest: seq<Entry>, next: seq<Entry>, after: seq<Entry>, all: seq<Entry>)
    requires before + rest == all && (before + next) + after == all
    ensures rest == next + after
  {
    assert rest == all[|before|..];
    assert (before + next) + after == before + (next + after);
    assert next + after == all[|before|..];
  }

  /** RowStoreRecord::canRevert and InsertRecord::canRevert. */
  method BaseCanRevert(base: seq<Entry>, insert: bool, highest: nat, version: nat) returns (u: Undo)
    requires insert ==> |base| == 1
    ensures var w := UndoIn(Older(base, highest), version); u == if insert && w.Refuse? then Nothing else w
  {
    if insert {
      return if base[0].version >= highest || base[0].version != version then Nothing else Append;
    }
    var i := SkipHidden(base, highest);
    ghost var o := Older(base, highest);
    if i >= |base| || base[i].version < version {
      return Nothing;
    }
    if base[i].version == version {
      return Append;
    }
    while i < |base|
      invariant i <= |base| && Holds(o, version) == Holds(base[i..], version)
    {
      assert base[i..][1..] == base[i + 1..];
      if base[i].version < version {
        return Nothing;
      }
      if base[i].version == version {
        return Refuse;
      }
      i := i + 1;
    }
    return Nothing;
  }

  /** An operation on a key: a write with the type it expects to find, or a revert. */
  datatype Op = Write(version: nat, expected: Kind, kind: Kind, data: seq<int>) | Rollback(version: nat)

  /** insert, update and remove of the table. */
  predicate OpOK(op: Op) {
    && op.version < MAX
    && (op.Write? ==> (op.expected.Delete? && op.kind.Data?) || (op.expected.Data? && !op.kind.Revert?))
  }

  function Record(op: Op): Entry {
    if op.Write? then Entry(op.version, op.kind, op.data) else Entry(op.version, Revert, [])
  }

  /** The update records written by a history; histories list the newest operation first. */
  function Records(h: seq<Op>): seq<Entry> {
    seq(|h|, i requires 0 <= i < |h| => Record(h[i]))
  }

  /** The operation appends a record to a chain. */
  ghost predicate Accepted(sees: (nat, nat) -> bool, c: seq<Entry>, base: seq<Entry>, op: Op)
    requires base != []
  {
    && OpOK(op)
    && (op.Write? ==> MayWrite(View(c, base), op.expected, (u: nat) => sees(op.version, u)) == Ok)
    && (op.Rollback? ==> View(c, base) != [] && View(c, base)[0].version == op.version)
  }

  ghost predicate History(sees: (nat, nat) -> bool, base: seq<Entry>, h: seq<Op>)
    requires base != []
  {
    h == [] || (History(sees, base, h[1..]) && Accepted(sees, Records(h[1..]), base, h[0]))
  }

  /** The plain meaning of a history: a stack of versions.  A write puts its version on top, or replaces the top if it
      is its own; a revert takes the top off. */
  function Stack(base: seq<Entry>, h: seq<Op>): seq<Entry> {
    if h == [] then base
    else
      Stacked(h[0], Stack(base, h[1..]))
  }

  /** No operation is older than the base record: what the code asserts and does not enforce. */
  predicate NoneBelow(base: seq<Entry>, h: seq<Op>)
    requires base != []
  {
    forall i | 0 <= i < |h| :: base[0].version <= h[i].version
  }

  /** No read set holds a version above its own. */
  ghost predicate ReadsOK(sees: (nat, nat) -> bool) {
    forall v, u | sees(v, u) :: u <= v
  }

  predicate Decreasing(s: seq<Entry>) {
    forall i, j | 0 <= i < j < |s| :: s[j].version < s[i].version
  }

  function Under(s: seq<Entry>, low: nat): seq<Entry> {
    if s == [] then [] else if s[0].version < low then s else Under(s[1..], low)
  }

  lemma RecordsTail(h: seq<Op>)
    requires h != []
    ensures Records(h) == [Record(h[0])] + Records(h[1..])
    ensures Records(h)[1..] == Records(h[1..])
  {
  }

  /** The operations since the last one below version `b`. */
  function Recent(b: nat, h: seq<Op>): seq<Op> {
    if h == [] || h[0].version < b then [] else [h[0]] + Recent(b, h[1..])
  }

  predicate Between(h: seq<Op>, b: nat) {
    forall i | 0 <= i < |h| :: b <= h[i].version < MAX
  }

  lemma {:induction false} RecentOK(sees: (nat, nat) -> bool, base: seq<Entry>, h: seq<Op>)
    requires base != [] && History(sees, base, h)
    ensures Between(Recent(base[0].version, h), base[0].version)
    ensures AllAbove(Records(Recent(base[0].version, h)), base[0].version)
    ensures BelowMax(Records(Recent(base[0].version, h)))
    ensures NoneBelow(base, h) ==> Recent(base[0].version, h) == h
  {
    if h != [] {
      RecentOK(sees, base, h[1..]);
      assert NoneBelow(base, h) ==> NoneBelow(base, h[1..]) && h[0].version >= base[0].version;
    }
  }

  /** The pass ends at the first record below the base version. */
  lemma {:induction false} RestOfRecent(h: seq<Op>, b: nat, low: nat)
    ensures Rest(Records(h), b, low) == Rest(Records(Recent(b, h)), b, low)
  {
    if h != [] {
      RecordsTail(h);
      if h[0].version >= b {
        RecordsTail(Recent(b, h));
        RestOfRecent(h[1..], b, low);
        RestOfRecent(h[1..], b, h[0].version);
      }
    }
  }

  lemma {:induction false} ViewOfRecent(base: seq<Entry>, h: seq<Op>)
    requires base != [] && (h == [] || h[0].version >= base[0].version)
    ensures View(Records(h), base) == View(Records(Recent(base[0].version, h)), base)
  {
    var b := base[0].version;
    if h != [] {
      RecordsTail(h);
      RecordsTail(Recent(b, h));
      RestOfRecent(h[1..], b, h[0].version);
    }
  }

  /** Putting `e` on a stack, in place of its own version if that is on top. */
  function Push(below: seq<Entry>, e: Entry): seq<Entry> {
    [e] + (if below != [] && below[0].version == e.version then below[1..] else below)
  }

  lemma PushStep(c: seq<Entry>, e: Entry, below: seq<Entry>, low: nat)
    requires Decreasing(below) && !e.kind.Revert? && (below == [] || below[0].version <= e.version)
    requires var b := if e.version >= low then low else e.version; Visible(c, b) == Under(below, b)
    ensures Decreasing(Push(below, e)) && Visible([e] + c, low) == Under(Push(below, e), low)
  {
    var st := Push(below, e);
    assert ([e] + c)[1..] == c;
    UnderTop(below, e.version);
    if e.version >= low {
      assert st[1..] == if below != [] && below[0].version == e.version then below[1..] else below;
      if below != [] && below[0].version == e.version {
        UnderTop(below, low);
      }
    }
  }

  lemma PopStep(c: seq<Entry>, e: Entry, below: seq<Entry>, low: nat)
    requires Decreasing(below) && e.kind.Revert? && below != [] && below[0].version == e.version
    requires var b := if e.version >= low then low else e.version; Visible(c, b) == Under(below, b)
    ensures Decreasing(below[1..]) && Visible([e] + c, low) == Under(below[1..], low)
  {
    assert ([e] + c)[1..] == c;
    UnderTop(below, e.version);
    if e.version >= low {
      UnderTop(below, low);
    } else if |below| > 1 {
      assert below[1..][0].version < e.version;
    }
  }

  /** An accepted write is not older than the newest visible version; an accepted revert has just that version. */
  lemma AcceptedTop(sees: (nat, nat) -> bool, c: seq<Entry>, base: seq<Entry>, op: Op)
    requires base != [] && ReadsOK(sees) && Accepted(sees, c, base, op)
    ensures op.Write? ==> View(c, base) == [] || View(c, base)[0].version <= op.version
    ensures op.Rollback? ==> View(c, base) != [] && View(c, base)[0].version == op.version
  {
  }

  /** The stack with one more operation. */
  function Stacked(op: Op, below: seq<Entry>): seq<Entry> {
    if op.Write? then Push(below, Record(op)) else if below == [] then [] else below[1..]
  }

  /** The operation may be put on the stack: a write is not older than the top, a revert has the version of the top. */
  predicate Fits(op: Op, below: seq<Entry>) {
    if op.Write? then below == [] || below[0].version <= op.version else below != [] && below[0].version == op.version
  }

  lemma StackStep(op: Op, c: seq<Entry>, below: seq<Entry>, low: nat)
    requires OpOK(op) && Fits(op, below) && Decreasing(below)
    requires var b := if op.version >= low then low else op.version; Visible(c, b) == Under(below, b)
    ensures Decreasing(Stacked(op, below)) && Visible([Record(op)] + c, low) == Under(Stacked(op, below), low)
  {
    if op.Write? {
      PushStep(c, Record(op), below, low);
    } else {
      PopStep(c, Record(op), below, low);
    }
  }

  lemma BaseIsStack(base: seq<Entry>, low: nat)
    requires BaseOK(base)
    ensures Stack(base, []) == base && Decreasing(base) && Visible(Records([]) + base, low) == Under(base, low)
  {
    assert Records([]) + base == base;
    OlderIsVisible(base, low);
    OlderIsUnder(base, low);
  }

  /** The first operation at or above the base version after one below it is a write. */
  lemma BackAboveBase(sees: (nat, nat) -> bool, base: seq<Entry>, op: Op, t: seq<Op>)
    requires BaseOK(base) && ReadsOK(sees) && History(sees, base, t) && Accepted(sees, Records(t), base, op)
    requires t != [] && t[0].version < base[0].version <= op.version
    ensures op.Write?
  {
    ViewBelow(base, t);
    OlderBelow(base, t[0].version);
  }

  lemma {:induction false} OlderBelow(s: seq<Entry>, low: nat)
    ensures Older(s, low) != [] ==> Older(s, low)[0].version < low
  {
    if s != [] {
      OlderBelow(s[1..], low);
    }
  }

  /** One pass over the unsorted chain recovers the stack of the recent operations, below every bound. */
  lemma {:induction false} RecentVisible(sees: (nat, nat) -> bool, base: seq<Entry>, h: seq<Op>, low: nat)
    requires BaseOK(base) && ReadsOK(sees) && History(sees, base, h)
    ensures var r := Recent(base[0].version, h);
            Decreasing(Stack(base, r)) && Visible(Records(r) + base, low) == Under(Stack(base, r), low)
    decreases |h|, 0
  {
    hide Visible, Under, History, Accepted, Rest, Iterate, View;
    var b := base[0].version;
    if h == [] || h[0].version < b {
      BaseIsStack(base, low);
    } else {
      var op, t := h[0], h[1..];
      var r := Recent(b, t);
      HistoryStep(sees, base, h);
      assert Recent(b, h)[1..] == r;
      RecordsTail(Recent(b, h));
      assert Records(Recent(b, h)) + base == [Record(op)] + (Records(r) + base);
      RecentFits(sees, base, op, t);
      RecentVisible(sees, base, t, if op.version >= low then low else op.version);
      StackStep(op, Records(r) + base, Stack(base, r), low);
    }
  }

  lemma HistoryStep(sees: (nat, nat) -> bool, base: seq<Entry>, h: seq<Op>)
    requires base != [] && History(sees, base, h) && h != []
    ensures History(sees, base, h[1..]) && Accepted(sees, Records(h[1..]), base, h[0]) && OpOK(h[0])
  {
  }

  lemma RecentFits(sees: (nat, nat) -> bool, base: seq<Entry>, op: Op, t: seq<Op>)
    requires BaseOK(base) && ReadsOK(sees) && History(sees, base, t) && Accepted(sees, Records(t), base, op)
    requires op.version >= base[0].version
    ensures Fits(op, Stack(base, Recent(base[0].version, t)))
    decreases |t|, 2
  {
    if t != [] && t[0].version < base[0].version {
      BackAboveBase(sees, base, op, t);
    } else {
      ViewIsRecent(sees, base, t);
      AcceptedTop(sees, Records(t), base, op);
    }
  }

  /** For every accepted history a lookup considers the stack of the operations since the last one below the base
      version, put on the base record. */
  lemma ViewIsRecent(sees: (nat, nat) -> bool, base: seq<Entry>, h: seq<Op>)
    requires BaseOK(base) && ReadsOK(sees) && History(sees, base, h) && (h == [] || h[0].version >= base[0].version)
    ensures View(Records(h), base) == Stack(base, Recent(base[0].version, h))
    ensures Decreasing(Stack(base, Recent(base[0].version, h)))
    decreases |h|, 1
  {
    hide History, Rest, Iterate, View, Under;
    var r := Recent(base[0].version, h);
    RecentOK(sees, base, h);
    ViewOfRecent(base, h);
    ViewIsVisible(Records(r), base);
    RecentVisible(sees, base, h, MAX);
    StackBelowMax(base, r);
    UnderAll(Stack(base, r), MAX);
  }

  lemma {:induction false} OlderIsUnder(s: seq<Entry>, low: nat)
    ensures Older(s, low) == Under(s, low)
  {
    if s != [] && s[0].version >= low {
      OlderIsUnder(s[1..], low);
    }
  }

  /** In a decreasing list only the first element can be at or above the version of the first. */
  lemma UnderTop(s: seq<Entry>, low: nat)
    requires Decreasing(s)
    ensures s != [] && s[0].version <= low ==> Under(s, low) == if s[0].version == low then s[1..] else s
    ensures s != [] && s[0].version >= low ==> Under(s, low) == Under(s[1..], low)
  {
    if |s| > 1 {
      assert s[1..][0].version < s[0].version;
    }
  }

  /** For every history of accepted writes and reverts that stays at or above the base version, the versions a lookup
      considers are exactly the stack of the history, newest first and strictly decreasing. */
  lemma ViewIsStack(sees: (nat, nat) -> bool, base: seq<Entry>, h: seq<Op>)
    requires BaseOK(base) && ReadsOK(sees) && History(sees, base, h) && NoneBelow(base, h)
    ensures View(Records(h), base) == Stack(base, h) && Decreasing(Stack(base, h))
  {
    RecentOK(sees, base, h);
    ViewIsRecent(sees, base, h);
  }

  lemma {:induction false} StackBelowMax(base: seq<Entry>, h: seq<Op>)
    requires BaseOK(base) && Between(h, base[0].version)
    ensures BelowMax(Stack(base, h))
  {
    if h != [] {
      StackBelowMax(base, h[1..]);
    }
  }

  lemma UnderAll(s: seq<Entry>, low: nat)
    requires forall i | 0 <= i < |s| :: s[i].version < low
    ensures Under(s, low) == s
  {
  }

  lemma NoneBelowCons(base: seq<Entry>, h: seq<Op>, v: Op)
    requires base != [] && NoneBelow(base, h) && v.version >= base[0].version
    ensures NoneBelow(base, [v] + h)
  {
    forall i | 0 <= i < |[v] + h| ensures base[0].version <= ([v] + h)[i].version {
      assert i > 0 ==> ([v] + h)[i] == h[i - 1];
    }
  }

  /** For every accepted history at or above the base version a further write is accepted exactly if its writer sees the
      top of the stack and a lookup by the writer finds no tuple, for an insert, or the top, for an update or removal. */
  lemma AcceptedExactly(sees: (nat, nat) -> bool, base: seq<Entry>, h: seq<Op>, op: Op)
    requires BaseOK(base) && ReadsOK(sees) && History(sees, base, h) && NoneBelow(base, h) && OpOK(op) && op.Write?
    ensures var stack, own := Stack(base, h), (u: nat) => sees(op.version, u);
            var found := Read(stack, own, true);
            Accepted(sees, Records(h), base, op) <==>
              && (stack == [] || sees(op.version, stack[0].version))
              && (if op.expected.Delete? then !found.Tuple? else found.Tuple? && found.version == stack[0].version)
  {
    ViewIsStack(sees, base, h);
    ViewHasNoReverts(Records(h), base);
    MayWriteSame(Stack(base, h), op.expected, (u: nat) => sees(op.version, u), (u: nat) => sees(op.version, u));
    ReadSame(Stack(base, h), (u: nat) => sees(op.version, u), (u: nat) => sees(op.version, u), true);
  }

  lemma {:induction false} ReadSame(view: seq<Entry>, s: nat -> bool, t: nat -> bool, newest: bool)
    requires forall u: nat :: s(u) == t(u)
    ensures Read(view, s, newest) == Read(view, t, newest)
  {
    if view != [] {
      ReadSame(view[1..], s, t, false);
    }
  }

  /** One more accepted operation, at or above the base version. */
  lemma HistoryCons(sees: (nat, nat) -> bool, base: seq<Entry>, h: seq<Op>, op: Op)
    requires BaseOK(base) && ReadsOK(sees) && History(sees, base, h) && NoneBelow(base, h)
    requires Accepted(sees, Records(h), base, op) && base[0].version <= op.version
    ensures History(sees, base, [op] + h) && NoneBelow(base, [op] + h)
    ensures var view := View(Records(h), base);
            View(Records([op] + h), base) == Stacked(op, view)
  {
    assert ([op] + h)[1..] == h;
    NoneBelowCons(base, h, op);
    ViewIsStack(sees, base, h);
    ViewIsStack(sees, base, [op] + h);
  }

  /** A transaction's write followed by its revert, for every accepted history: if the newest version before the write
      was the transaction's own, the revert takes that one away and the version below it is back; otherwise every lookup
      by every snapshot is as it was before the write, result and error code. */
  lemma RevertedWriteIsInvisible(sees: (nat, nat) -> bool, base: seq<Entry>, h: seq<Op>, w: Op, snapshot: nat -> bool)
    requires BaseOK(base) && ReadsOK(sees) && w.Write?
    requires History(sees, base, [Rollback(w.version), w] + h) && NoneBelow(base, [w] + h)
    ensures var before, after := View(Records(h), base), View(Records([Rollback(w.version), w] + h), base);
            && after == (if before != [] && before[0].version == w.version then before[1..] else before)
            && (before == [] || before[0].version != w.version ==> Read(after, snapshot, true) == Read(before, snapshot, true))
  {
    hide History, View, Read, Accepted;
    var h2 := [Rollback(w.version), w] + h;
    assert h2[1..] == [w] + h && ([w] + h)[1..] == h;
    assert h2[0] == Rollback(w.version) && ([w] + h)[0] == w;
    HistoryStep(sees, base, h2);
    HistoryStep(sees, base, [w] + h);
    assert NoneBelow(base, h) && NoneBelow(base, h2) by {
      assert ([w] + h)[0].version == w.version;
      forall i | 0 <= i < |h| ensures base[0].version <= h[i].version {
        assert ([w] + h)[i + 1] == h[i];
      }
    }
    ViewIsStack(sees, base, h);
    ViewIsStack(sees, base, h2);
  }

  // ------------------------------------------------------------------ writes below the base version

  /** The history `h` is accepted; it means `stack`, and a lookup goes through `view`. */
  ghost predicate HistoryShows(sees: (nat, nat) -> bool, base: seq<Entry>, h: seq<Op>, stack: seq<Entry>,
                               view: seq<Entry>)
    requires base != []
  {
    History(sees, base, h) && Stack(base, h) == stack && View(Records(h), base) == view
  }

  /** The failing case: version 5 inserts the key and reverts, version 3 inserts it, version 6 updates it.  A lookup
      that cannot read version 6 then finds the reverted record of version 5 and not the one of version 3. */
  lemma BaseComesBack(sees: (nat, nat) -> bool)
    requires ReadsOK(sees) && sees(6, 3)
    ensures var e5, e3, e6 := Entry(5, Data, [50]), Entry(3, Data, [30]), Entry(6, Data, [60]);
            var h := [Write(6, Data, Data, [60]), Write(3, Delete, Data, [30]), Rollback(5)];
            BaseOK([e5]) && HistoryShows(sees, [e5], h, [e6, e3], [e6, e5])
  {
    var e5 := Entry(5, Data, [50]);
    var v, w := Write(3, Delete, Data, [30]), Write(6, Data, Data, [60]);
    assert [e5][1..] == [];
    OlderFrom([e5], 1, 5);
    OlderFrom([e5], 1, 3);
    TwoWritesOnReverted(sees, [e5], v, w);
    assert [Record(w), Record(v)] + [] == [Record(w), Record(v)];
    assert [Record(w)] + [e5] == [Record(w), e5];
  }

  /** A main record with several elements fails in the same way: version 7 is reverted, 6 updates the uncovered 5, and
      8 updates 6.  The reverted 7 is back and 6 is lost. */
  lemma NewestElementComesBack(sees: (nat, nat) -> bool)
    requires ReadsOK(sees) && sees(6, 5) && sees(8, 6)
    ensures var e7, e5, e6, e8 := Entry(7, Data, [70]), Entry(5, Data, [50]), Entry(6, Data, [60]), Entry(8, Data, [80]);
            var h := [Write(8, Data, Data, [80]), Write(6, Data, Data, [60]), Rollback(7)];
            BaseOK([e7, e5]) && HistoryShows(sees, [e7, e5], h, [e8, e6, e5], [e8, e7, e5])
  {
    var e7, e5 := Entry(7, Data, [70]), Entry(5, Data, [50]);
    var v, w := Write(6, Data, Data, [60]), Write(8, Data, Data, [80]);
    assert [e7, e5][1..] == [e5] && Older([e5], 7) == [e5] && Older([e5], 6) == [e5];
    TwoWritesOnReverted(sees, [e7, e5], v, w);
    assert [Record(w), Record(v)] + [e5] == [Record(w), Record(v), e5];
    assert [Record(w)] + [e7, e5] == [Record(w), e7, e5];
  }

  /** Or the first write is lost without anything coming back: 3 and then 4 write under the reverted 5. */
  lemma WriteUnderBaseIsLost(sees: (nat, nat) -> bool)
    requires ReadsOK(sees) && sees(4, 3)
    ensures var e5, e3, e4 := Entry(5, Data, [50]), Entry(3, Data, [30]), Entry(4, Data, [40]);
            var h := [Write(4, Data, Data, [40]), Write(3, Delete, Data, [30]), Rollback(5)];
            BaseOK([e5]) && HistoryShows(sees, [e5], h, [e4, e3], [e4])
  {
    var e5 := Entry(5, Data, [50]);
    var v, w := Write(3, Delete, Data, [30]), Write(4, Data, Data, [40]);
    assert [e5][1..] == [];
    OlderFrom([e5], 1, 5);
    OlderFrom([e5], 1, 4);
    OlderFrom([e5], 1, 3);
    TwoWritesOnReverted(sees, [e5], v, w);
    assert [Record(w), Record(v)] + [] == [Record(w), Record(v)];
    assert [Record(w)] + [] == [Record(w)];
  }

  /** A write below the base version fails the next one even after it has been reverted itself: version 5 inserts the key
      and reverts, 3 inserts it and reverts, and when 6 inserts it the reverted 5 is back under it. */
  lemma RevertedWriteUnderBase(sees: (nat, nat) -> bool)
    requires ReadsOK(sees)
    ensures var e5, e6 := Entry(5, Data, [50]), Entry(6, Data, [60]);
            var h := [Write(6, Delete, Data, [60]), Rollback(3), Write(3, Delete, Data, [30]), Rollback(5)];
            BaseOK([e5]) && HistoryShows(sees, [e5], h, [e6], [e6, e5])
  {
    var base := [Entry(5, Data, [50])];
    var v, w := Write(3, Delete, Data, [30]), Write(6, Delete, Data, [60]);
    OlderFrom(base, 1, 5);
    OlderFrom(base, 1, 3);
    assert base[1..] == [] && Older(base, 6) == base && [Record(w)] + base == [Record(w), base[0]];
    RevertedOnReverted(sees, base, v, w);
  }

  /** The base is reverted, a write below it as well, and another write follows. */
  lemma {:induction false} RevertedOnReverted(sees: (nat, nat) -> bool, base: seq<Entry>, v: Op, w: Op)
    requires BaseOK(base) && |base| == 1 && OpOK(v) && OpOK(w) && v.Write? && w.Write? && v.version < base[0].version
    requires MayWrite([], v.expected, (u: nat) => sees(v.version, u)) == Ok
    requires MayWrite([], w.expected, (u: nat) => sees(w.version, u)) == Ok
    ensures HistoryShows(sees, base, [w, Rollback(v.version), v, Rollback(base[0].version)],
                  [Record(w)], [Record(w)] + Older(base, w.version))
  {
    hide HistoryShows;
    var b, r := Rollback(base[0].version), Rollback(v.version);
    OlderFrom(base, 1, base[0].version);
    OlderFrom(base, 1, v.version);
    assert base[1..] == [] && Older(base, base[0].version) == [] && Older(base, v.version) == [];
    BaseReverted(sees, base);
    ShowsBelow(sees, base, [b], v, [], []);
    assert [v] + [b] == [v, b] && [Record(v)] + [] == [Record(v)];
    assert Stacked(v, []) == [Record(v)] && Shown(v) + [] == [Record(v)];
    ShowsBelow(sees, base, [v, b], r, [Record(v)], [Record(v)]);
    assert [r] + [v, b] == [r, v, b] && Stacked(r, [Record(v)]) == [] && Shown(r) + [] == [];
    ShowsBelow(sees, base, [r, v, b], w, [], []);
    assert [w] + [r, v, b] == [w, r, v, b] && Stacked(w, []) == [Record(w)];
  }

  /** The newest base element is reverted and two writes follow, the first of them below it. */
  lemma TwoWritesOnReverted(sees: (nat, nat) -> bool, base: seq<Entry>, v: Op, w: Op)
    requires BaseOK(base) && OpOK(v) && OpOK(w) && v.Write? && w.Write? && v.version < base[0].version
    requires w.version != v.version && (base[1..] != [] ==> base[1].version != v.version)
    requires MayWrite(Older(base, base[0].version), v.expected, (u: nat) => sees(v.version, u)) == Ok
    requires MayWrite([Record(v)] + Older(base, v.version), w.expected, (u: nat) => sees(w.version, u)) == Ok
    ensures HistoryShows(sees, base, [w, v, Rollback(base[0].version)],
                  [Record(w), Record(v)] + base[1..], [Record(w)] + Older(base, w.version))
  {
    hide HistoryShows;
    var r := Rollback(base[0].version);
    OlderFrom(base, 1, base[0].version);
    BaseReverted(sees, base);
    ShowsBelow(sees, base, [r], v, base[1..], base[1..]);
    assert [v] + [r] == [v, r];
    ShowsBelow(sees, base, [v, r], w, [Record(v)] + base[1..], [Record(v)] + Older(base, v.version));
    assert [w] + [v, r] == [w, v, r];
    assert [Record(w)] + ([Record(v)] + base[1..]) == [Record(w), Record(v)] + base[1..];
  }

  /** The newest base element is reverted. */
  lemma {:induction false} BaseReverted(sees: (nat, nat) -> bool, base: seq<Entry>)
    requires BaseOK(base)
    ensures HistoryShows(sees, base, [Rollback(base[0].version)], base[1..], Older(base, base[0].version))
  {
    var r := Rollback(base[0].version);
    assert [r][1..] == [] && Records([]) == [] && Older(base, MAX) == base && [] + base == base;
    assert Records([r]) == [Record(r)];
    assert After([Record(r)], base[0].version, 0) == ([], base[0].version);
    assert [] + Older(base, base[0].version) == Older(base, base[0].version);
    AcceptedOn(sees, Records([]), base, r, base);
    assert History(sees, base, []) && Stack(base, []) == base;
  }

  /** One more operation, below the base version or directly on top of one that is. */
  lemma {:induction false} ShowsBelow(sees: (nat, nat) -> bool, base: seq<Entry>, g: seq<Op>, op: Op,
                                      stack: seq<Entry>, view: seq<Entry>)
    requires base != [] && g != [] && HistoryShows(sees, base, g, stack, view) && OpOK(op)
    requires op.Write? ==> MayWrite(view, op.expected, (u: nat) => sees(op.version, u)) == Ok
    requires op.Rollback? ==> view != [] && view[0].version == op.version
    requires op.version < base[0].version || g[0].version < base[0].version
    ensures HistoryShows(sees, base, [op] + g, Stacked(op, stack), Shown(op) + Older(base, op.version))
  {
    var h := [op] + g;
    assert h[1..] == g;
    AcceptedOn(sees, Records(g), base, op, view);
    if op.version < base[0].version {
      ViewBelow(base, h);
    } else {
      ViewOnBelow(base, h);
    }
  }

  /** Whether an operation is accepted depends only on the versions that a lookup considers. */
  lemma AcceptedOn(sees: (nat, nat) -> bool, c: seq<Entry>, base: seq<Entry>, op: Op, view: seq<Entry>)
    requires base != [] && OpOK(op) && View(c, base) == view
    requires op.Write? ==> MayWrite(view, op.expected, (u: nat) => sees(op.version, u)) == Ok
    requires op.Rollback? ==> view != [] && view[0].version == op.version
    ensures Accepted(sees, c, base, op)
  {
    if op.Write? {
      MayWriteSame(view, op.expected, (u: nat) => sees(op.version, u), (u: nat) => sees(op.version, u));
    }
  }

  lemma MayWriteSame(view: seq<Entry>, expected: Kind, s: nat -> bool, t: nat -> bool)
    requires forall u: nat :: s(u) == t(u)
    ensures MayWrite(view, expected, s) == MayWrite(view, expected, t)
  {
  }

  lemma {:induction false} VisibleAbove(c: seq<Entry>, low: nat, b: nat)
    requires AllAbove(c, b)
    ensures AllAbove(Visible(c, low), b) && (b <= low ==> b <= Lowest(c, low))
  {
    if c != [] {
      var low' := if c[0].version < low then c[0].version else low;
      VisibleAbove(c[1..], low', b);
    }
  }

  lemma {:induction false} RestBelow(c: seq<Entry>, b: nat, low: nat)
    requires low <= b
    ensures Rest(c, b, low) == ([], low)
  {
    if c != [] && c[0].version >= b {
      RestBelow(c[1..], b, low);
    }
  }

  /** What an operation itself adds to the list of versions. */
  function Shown(op: Op): seq<Entry> {
    if op.Write? then [Record(op)] else []
  }

  /** An operation below the base version cuts off the whole update log under it: what is left is the base record. */
  lemma {:induction false} ViewBelow(base: seq<Entry>, h: seq<Op>)
    requires base != [] && h != [] && h[0].version < base[0].version && OpOK(h[0])
    ensures View(Records(h), base) == Shown(h[0]) + Older(base, h[0].version)
  {
    var c := Records(h);
    RecordsTail(h);
    RestBelow(c[1..], base[0].version, h[0].version);
    assert c[0].kind.Revert? <==> h[0].Rollback?;
    assert [c[0]] + [] == [c[0]];
  }

  /** The same for an operation directly on top of one below the base version. */
  lemma {:induction false} ViewOnBelow(base: seq<Entry>, h: seq<Op>)
    requires base != [] && |h| > 1 && h[1].version < base[0].version && OpOK(h[0])
    ensures View(Records(h), base) == Shown(h[0]) + Older(base, h[0].version)
  {
    var c := Records(h);
    RecordsTail(h);
    assert c[1..][0].version == h[1].version;
    assert After(c, base[0].version, 0) == ([], h[0].version);
    assert c[0].kind.Revert? <==> h[0].Rollback?;
    assert [c[0]] + [] == [c[0]];
  }

  /** A lookup whose newest version is below the base version has met a revert of the base version and nothing else
      that is visible. */
  lemma ViewUnderBase(c: seq<Entry>, base: seq<Entry>, v: nat)
    requires BaseOK(base) && AllAbove(c, base[0].version) && BelowMax(c)
    requires v < base[0].version && (View(c, base) == [] || View(c, base)[0].version <= v)
    ensures View(c, base) == base[1..]
  {
    var b := base[0].version;
    IterateIsVisible(c, b);
    VisibleAbove(c, MAX, b);
    NothingOnTop(Visible(c, MAX), base, Lowest(c, MAX), v);
    OlderFrom(base, 1, b);
  }

  lemma NothingOnTop(top: seq<Entry>, base: seq<Entry>, low: nat, v: nat)
    requires BaseOK(base) && AllAbove(top, base[0].version) && base[0].version <= low && v < base[0].version
    requires top + Older(base, low) == [] || (top + Older(base, low))[0].version <= v
    ensures top == [] && low == base[0].version
  {
    assert (top + Older(base, low))[..|top|] == top;
  }

  /** An operation below the base version on top of one that is not is accepted only when the newest base element has
      been reverted. */
  lemma BaseIsReverted(sees: (nat, nat) -> bool, base: seq<Entry>, h: seq<Op>, v: Op)
    requires BaseOK(base) && ReadsOK(sees) && History(sees, base, h) && (h == [] || h[0].version >= base[0].version)
    requires Accepted(sees, Records(h), base, v) && v.version < base[0].version
    ensures View(Records(h), base) == base[1..] && Fits(v, base[1..])
    ensures |base| > 1 ==> base[1].version <= v.version
  {
    var r := Recent(base[0].version, h);
    RecentOK(sees, base, h);
    ViewOfRecent(base, h);
    AcceptedTop(sees, Records(h), base, v);
    ViewUnderBase(Records(r), base, v.version);
  }

  lemma {:induction false} OlderFrom(base: seq<Entry>, i: nat, low: nat)
    requires i <= |base| && (forall j | 0 <= j < i :: base[j].version >= low)
    ensures Older(base, low) == Older(base[i..], low)
    ensures i < |base| && base[i].version < low ==> Older(base, low) == base[i..]
    ensures i == |base| ==> Older(base, low) == []
  {
    if i > 0 {
      assert base[1..][i - 1..] == base[i..];
      OlderFrom(base[1..], i - 1, low);
    } else {
      assert base[0..] == base;
    }
  }

  /** The base elements from the second on, seen from a version that is not below them. */
  lemma OlderThanReverted(base: seq<Entry>, low: nat)
    requires BaseOK(base) && low <= base[0].version && (|base| > 1 ==> base[1].version <= low)
    ensures Older(base, low) == if |base| > 1 && base[1].version == low then base[2..] else base[1..]
  {
    if |base| > 1 {
      OlderFrom(base, if base[1].version == low then 2 else 1, low);
    } else {
      OlderFrom(base, 1, low);
    }
  }

  lemma {:induction false} OlderTwice(base: seq<Entry>, v: nat, w: nat)
    requires w <= v
    ensures Older(base, w) == Older(Older(base, v), w)
  {
    if base != [] && base[0].version >= v {
      OlderTwice(base[1..], v, w);
    }
  }

  lemma {:induction false} OlderDecreasing(base: seq<Entry>, low: nat)
    requires Decreasing(base)
    ensures Decreasing(Older(base, low))
  {
    if base != [] {
      OlderDecreasing(base[1..], low);
    }
  }

  lemma SameTail(a: seq<Entry>, x: seq<Entry>, y: seq<Entry>)
    ensures a + x == a + y <==> x == y
  {
    assert (a + x)[|a|..] == x && (a + y)[|a|..] == y;
  }

  /** An operation not above `v`: it replaces or reverts `v`, or goes below what the revert `v` uncovered. */
  lemma NotAboveTop(v: Op, w: Op, rest: seq<Entry>)
    requires Decreasing(rest) && Older(rest, v.version) == rest && w.version <= v.version && Fits(w, Shown(v) + rest)
    ensures Shown(w) + Older(rest, w.version) == Stacked(w, Shown(v) + rest)
  {
    if v.Write? {
      assert (Shown(v) + rest)[1..] == rest && (Shown(v) + rest)[0] == Record(v);
    } else {
      assert Shown(v) + rest == rest;
      OlderIsUnder(rest, w.version);
      UnderTop(rest, w.version);
    }
  }

  /** What operation `w` leaves to be seen is the operation put on the stack, if `v` directly before it lies below the
      base version. */
  predicate Agree(base: seq<Entry>, v: Op, w: Op) {
    w.version <= v.version || Older(base, w.version) == Shown(v) + Older(base, v.version)
  }

  lemma AgreesExactly(base: seq<Entry>, v: Op, w: Op)
    requires Decreasing(base) && Fits(w, Shown(v) + Older(base, v.version))
    ensures Shown(w) + Older(base, w.version) == Stacked(w, Shown(v) + Older(base, v.version)) <==> Agree(base, v, w)
  {
    var rest := Older(base, v.version);
    OlderBelow(base, v.version);
    if w.version > v.version {
      assert Stacked(w, Shown(v) + rest) == Shown(w) + (Shown(v) + rest);
      SameTail(Shown(w), Older(base, w.version), Shown(v) + rest);
    } else {
      OlderTwice(base, v.version, w.version);
      OlderTwice(base, v.version, v.version);
      OlderDecreasing(base, v.version);
      NotAboveTop(v, w, rest);
    }
  }

  /** While the newest operation is not below the base version, the next one keeps the lookups right. */
  lemma RightFromAbove(sees: (nat, nat) -> bool, base: seq<Entry>, g: seq<Op>, w: Op)
    requires BaseOK(base) && ReadsOK(sees) && History(sees, base, [w] + g) && View(Records(g), base) == Stack(base, g)
    requires g == [] || g[0].version >= base[0].version
    ensures View(Records([w] + g), base) == Stack(base, [w] + g)
  {
    hide History, View, Accepted;
    var h := [w] + g;
    assert h[1..] == g && h[0] == w;
    HistoryStep(sees, base, h);
    if w.version >= base[0].version {
      ViewIsRecent(sees, base, g);
      ViewIsRecent(sees, base, h);
      assert Recent(base[0].version, h)[1..] == Recent(base[0].version, g);
    } else {
      BaseIsReverted(sees, base, g, w);
      ViewBelow(base, h);
      OlderThanReverted(base, w.version);
    }
  }

  /** The exact condition for one more operation `w` on any accepted history `g` for which the lookups are right: they
      stay right if and only if the newest operation of `g` is not below the base version or agrees with `w`. */
  lemma RightStepExactly(sees: (nat, nat) -> bool, base: seq<Entry>, g: seq<Op>, w: Op)
    requires BaseOK(base) && ReadsOK(sees) && History(sees, base, [w] + g) && View(Records(g), base) == Stack(base, g)
    ensures View(Records([w] + g), base) == Stack(base, [w] + g)
            <==> g == [] || g[0].version >= base[0].version || Agree(base, g[0], w)
  {
    hide History, View, Accepted, Agree;
    var h := [w] + g;
    assert h[1..] == g && h[0] == w;
    HistoryStep(sees, base, h);
    if g == [] || g[0].version >= base[0].version {
      RightFromAbove(sees, base, g, w);
    } else {
      HistoryStep(sees, base, g);
      ViewBelow(base, g);
      ViewOnBelow(base, h);
      AcceptedTop(sees, Records(g), base, w);
      AgreesExactly(base, g[0], w);
    }
  }

  /** The operations on top of one below the base version all agree with it. */
  predicate AllAgree(base: seq<Entry>, h: seq<Op>)
    requires base != []
  {
    forall i | 0 <= i < |h| - 1 :: h[i + 1].version >= base[0].version || Agree(base, h[i + 1], h[i])
  }

  /** The exact condition for every accepted history: after each of its operations the lookups see the stack if and only
      if every operation below the base version agrees with the one that follows it. */
  lemma {:induction false} RightExactly(sees: (nat, nat) -> bool, base: seq<Entry>, h: seq<Op>)
    requires BaseOK(base) && ReadsOK(sees) && History(sees, base, h)
    ensures (forall i | 0 <= i <= |h| :: View(Records(h[i..]), base) == Stack(base, h[i..])) <==> AllAgree(base, h)
  {
    hide History, View, Accepted, Agree;
    if h == [] {
      ViewIsStack(sees, base, h);
    } else {
      var t := h[1..];
      HistoryStep(sees, base, h);
      RightExactly(sees, base, t);
      assert h == [h[0]] + t && h[0..] == h;
      assert forall i | 1 <= i <= |h| :: h[i..] == t[i - 1..];
      assert forall i | 0 <= i <= |t| :: t[i..] == h[i + 1..];
      assert AllAgree(base, h) <==> AllAgree(base, t) && (t == [] || t[0].version >= base[0].version || Agree(base, t[0], h[0]));
      if forall i | 0 <= i <= |t| :: View(Records(t[i..]), base) == Stack(base, t[i..]) {
        assert t[0..] == t;
        RightStepExactly(sees, base, t, h[0]);
      }
    }
  }
}
