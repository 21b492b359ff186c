/**
 The hash table of the main pages (util/CuckooHash.cpp, util/CuckooHash.hpp): three tables of slots, spread over pages,
 with a hash function each.  This file holds the table as a value; the modifier that changes it in place follows in
 CuckooModifier.dfy.
 */
module CuckooTable {

  /** A key with a value; the value 0 is the null pointer. */
  datatype Entry = Entry(key: nat, value: nat)

  /** What a fresh page holds. */
  const ZERO := Entry(0, 0)

  /** The entries of a page (2 MB pages, 16 bytes an entry). */
  const ENTRIES_PER_PAGE: nat := 0x2_0000

  /** The pages, and the index of a key in each of the three tables. */
  datatype Table = Table(pages: seq<seq<Entry>>, hash: (nat, nat) -> nat)

  /** Page and place of a slot of table `h`. */
  function PageOf(h: nat, idx: nat): nat {
    3 * RowOf(idx) + h
  }

  /** The quotient and the remainder of an index by the entries of a page (QuotientAndRemainder), counted out page by page:
      a recursive definition keeps the division by a large constant out of the proofs. */
  function RowOf(idx: nat): nat {
    if idx < 0x2_0000 then 0 else 1 + RowOf(idx - 0x2_0000)
  }

  function PlaceOf(idx: nat): nat {
    if idx < 0x2_0000 then idx else PlaceOf(idx - 0x2_0000)
  }

  lemma QuotientAndRemainder(idx: nat)
    ensures RowOf(idx) == idx / 0x2_0000 && PlaceOf(idx) == idx % 0x2_0000
  {
  }

  lemma Recompose(idx: nat)
    ensures idx == 0x2_0000 * RowOf(idx) + PlaceOf(idx) && PlaceOf(idx) < 0x2_0000
  {
  }

  ghost predicate Shape(t: Table) {
    && |t.pages| > 0 && |t.pages| % 3 == 0 && (forall p | 0 <= p < |t.pages| :: |t.pages[p]| == ENTRIES_PER_PAGE)
    && forall h: nat, key: nat | h < 3 :: t.hash(h, key) < |t.pages| / 3 * 0x2_0000
  }

  lemma SlotExists(t: Table, h: nat, key: nat)
    requires Shape(t) && h < 3
    ensures PageOf(h, t.hash(h, key)) < |t.pages| && PlaceOf(t.hash(h, key)) < ENTRIES_PER_PAGE
  {
    Recompose(t.hash(h, key));
  }

  /** The slot of a key in table `h`. */
  function Get(t: Table, h: nat, key: nat): Entry
    requires Shape(t) && h < 3
  {
    SlotExists(t, h, key);
    t.pages[PageOf(h, t.hash(h, key))][PlaceOf(t.hash(h, key))]
  }

  function Put(t: Table, h: nat, key: nat, e: Entry): Table
    requires Shape(t) && h < 3
  {
    SlotExists(t, h, key);
    var p, i := PageOf(h, t.hash(h, key)), PlaceOf(t.hash(h, key));
    t.(pages := t.pages[p := t.pages[p][i := e]])
  }

  lemma PlaceUnique(h: nat, g: nat, a: nat, b: nat)
    requires h < 3 && g < 3
    ensures PageOf(h, a) == PageOf(g, b) && PlaceOf(a) == PlaceOf(b) <==> h == g && a == b
  {
    Recompose(a);
    Recompose(b);
  }

  lemma GetPut(t: Table, h: nat, key: nat, e: Entry, g: nat, other: nat)
    requires Shape(t) && h < 3 && g < 3
    ensures Shape(Put(t, h, key, e))
    ensures Get(Put(t, h, key, e), g, other)
            == if g == h && t.hash(h, other) == t.hash(h, key) then e else Get(t, g, other)
  {
    SlotExists(t, h, key);
    SlotExists(t, g, other);
    PlaceUnique(h, g, t.hash(h, key), t.hash(g, other));
  }

  lemma SameSlot(t: Table, h: nat, a: nat, b: nat)
    requires Shape(t) && h < 3 && t.hash(h, a) == t.hash(h, b)
    ensures Get(t, h, a) == Get(t, h, b)
  {
  }

  // ------------------------------------------------------------------ the map

  predicate LiveIn(t: Table, h: nat, key: nat)
    requires Shape(t) && h < 3
  {
    Get(t, h, key).key == key && Get(t, h, key).value != 0
  }

  /** The value of the slot where the key lives, 0 if there is none. */
  function Lookup(t: Table, key: nat): nat
    requires Shape(t)
  {
    if LiveIn(t, 0, key) then Get(t, 0, key).value
    else if LiveIn(t, 1, key) then Get(t, 1, key).value
    else if LiveIn(t, 2, key) then Get(t, 2, key).value
    else 0
  }

  /** Every entry with a value stands where its key belongs. */
  predicate InPlace(t: Table, p: nat, i: nat)
    requires p < |t.pages| && i < |t.pages[p]|
  {
    var e := t.pages[p][i];
    e.value != 0 ==> PageOf(p % 3, t.hash(p % 3, e.key)) == p && PlaceOf(t.hash(p % 3, e.key)) == i
  }

  /** A key lives in at most one table, and no slot of an earlier table still carries it. */
  predicate FirstMatch(t: Table, key: nat)
    requires Shape(t)
  {
    && (LiveIn(t, 1, key) ==> Get(t, 0, key).key != key)
    && (LiveIn(t, 2, key) ==> Get(t, 0, key).key != key && Get(t, 1, key).key != key)
    && (LiveIn(t, 0, key) ==> !LiveIn(t, 1, key) && !LiveIn(t, 2, key))
    && (LiveIn(t, 1, key) ==> !LiveIn(t, 2, key))
  }

  ghost predicate TableOK(t: Table) {
    && Shape(t)
    && (forall p: nat, i: nat | p < |t.pages| && i < |t.pages[p]| :: InPlace(t, p, i))
    && (forall key: nat :: FirstMatch(t, key))
  }

  /** The first slot with the key has its value, and without such a slot there is none. */
  lemma FirstSlot(t: Table, key: nat, h: nat)
    requires Shape(t) && FirstMatch(t, key) && h <= 3
    requires forall g: nat | g < h :: Get(t, g, key).key != key
    ensures h < 3 && Get(t, h, key).key == key ==> Lookup(t, key) == Get(t, h, key).value
    ensures h == 3 ==> Lookup(t, key) == 0
  {
    hide Get;
    assert h > 0 ==> Get(t, 0, key).key != key;
    assert h > 1 ==> Get(t, 1, key).key != key;
    assert h > 2 ==> Get(t, 2, key).key != key;
  }

  /** get: trusts the first slot with the key, even if its value is null. */
  method GetValue(t: Table, key: nat) returns (value: nat)
    requires TableOK(t)
    ensures value == Lookup(t, key)
  {
    assert FirstMatch(t, key);
    for h := 0 to 3
      invariant forall g: nat | g < h :: Get(t, g, key).key != key
    {
      var e := Get(t, h, key);
      if e.key == key {
        return e.value;
      }
    }
    return 0;
  }

  /** An entry found in a slot with a value lives there. */
  lemma SlotLives(t: Table, h: nat, key: nat)
    requires TableOK(t) && h < 3 && Get(t, h, key).value != 0
    ensures var e := Get(t, h, key); t.hash(h, e.key) == t.hash(h, key) && LiveIn(t, h, e.key)
  {
    SlotExists(t, h, key);
    var p, i := PageOf(h, t.hash(h, key)), PlaceOf(t.hash(h, key));
    assert InPlace(t, p, i) && p % 3 == h;
    PlaceUnique(h, h, t.hash(h, key), t.hash(h, t.pages[p][i].key));
  }

  lemma LookupLive(t: Table, h: nat, key: nat)
    requires TableOK(t) && h < 3 && LiveIn(t, h, key)
    ensures Lookup(t, key) == Get(t, h, key).value
  {
    hide Get;
    assert FirstMatch(t, key);
  }

  lemma LookupNone(t: Table, key: nat)
    requires Shape(t)
    ensures Lookup(t, key) == 0 <==> !LiveIn(t, 0, key) && !LiveIn(t, 1, key) && !LiveIn(t, 2, key)
  {
    hide Get;
  }

  /** The key can be put into table `h`: it lives nowhere, and the slots of the earlier tables do not carry it. */
  predicate Placeable(t: Table, h: nat, key: nat)
    requires Shape(t)
  {
    Lookup(t, key) == 0 && forall g: nat | g < h && g < 3 :: Get(t, g, key).key != key
  }

  lemma PutInPlace(t: Table, h: nat, key: nat, e: Entry)
    requires TableOK(t) && h < 3 && e.key == key
    ensures var u := Put(t, h, key, e);
            Shape(u) && forall p: nat, i: nat | p < |u.pages| && i < |u.pages[p]| :: InPlace(u, p, i)
  {
    GetPut(t, h, key, e, h, key);
    SlotExists(t, h, key);
    var u, q, k := Put(t, h, key, e), PageOf(h, t.hash(h, key)), PlaceOf(t.hash(h, key));
    forall p: nat, i: nat | p < |u.pages| && i < |u.pages[p]| ensures InPlace(u, p, i) {
      assert InPlace(t, p, i);
      if p == q && i == k {
        assert q % 3 == h;
      }
    }
  }

  /** Putting a key into its slot displaces at most the key found there, and keeps every other key. */
  lemma PutKeeps(t: Table, h: nat, key: nat, value: nat, other: nat)
    requires TableOK(t) && h < 3 && Placeable(t, h, key) && value != 0
    ensures var u, e := Put(t, h, key, Entry(key, value)), Get(t, h, key);
            && Shape(u) && FirstMatch(u, other)
            && Lookup(u, other) == (if other == key then value else if e.value != 0 && other == e.key then 0 else Lookup(t, other))
  {
    hide PageOf, PlaceOf, InPlace, Get, Put;
    var n, e := Entry(key, value), Get(t, h, key);
    GetPut(t, h, key, n, 0, other);
    GetPut(t, h, key, n, 1, other);
    GetPut(t, h, key, n, 2, other);
    if t.hash(h, other) == t.hash(h, key) {
      SameSlot(t, h, other, key);
    }
    assert FirstMatch(t, other);
    LookupNone(t, key);
    if e.value != 0 {
      SlotLives(t, h, key);
    }
  }

  /** One step of the insertion: the key goes into its slot of table `h`, and the entry found there, if any, can go into
      the next table. */
  lemma PlaceStep(t: Table, h: nat, key: nat, value: nat)
    requires TableOK(t) && h < 3 && Placeable(t, h, key) && value != 0
    ensures var u, e := Put(t, h, key, Entry(key, value)), Get(t, h, key);
            && TableOK(u)
            && (forall x: nat :: Lookup(u, x) == if x == key then value
                                                 else if e.value != 0 && x == e.key then 0 else Lookup(t, x))
            && (e.value != 0 ==> e.key != key && Placeable(u, h + 1, e.key))
  {
    hide PageOf, PlaceOf, InPlace, Get, Put;
    var u, e := Put(t, h, key, Entry(key, value)), Get(t, h, key);
    PutInPlace(t, h, key, Entry(key, value));
    forall x: nat
      ensures FirstMatch(u, x)
      ensures Lookup(u, x) == if x == key then value else if e.value != 0 && x == e.key then 0 else Lookup(t, x)
    {
      PutKeeps(t, h, key, value, x);
    }
    if e.value != 0 {
      SlotLives(t, h, key);
      LookupNone(t, key);
      assert FirstMatch(t, e.key);
      forall g: nat | g <= h ensures Get(u, g, e.key).key != e.key {
        GetPut(t, h, key, Entry(key, value), g, e.key);
      }
    }
  }

  /** Changing the value of a live key, also to null, changes nothing else. */
  lemma UpdateStep(t: Table, h: nat, key: nat, value: nat)
    requires TableOK(t) && h < 3 && LiveIn(t, h, key)
    ensures var u := Put(t, h, key, Entry(key, value));
            TableOK(u) && forall x: nat :: Lookup(u, x) == if x == key then value else Lookup(t, x)
  {
    hide PageOf, PlaceOf, InPlace, Get, Put;
    var u := Put(t, h, key, Entry(key, value));
    PutInPlace(t, h, key, Entry(key, value));
    forall x: nat ensures FirstMatch(u, x) && Lookup(u, x) == if x == key then value else Lookup(t, x) {
      GetPut(t, h, key, Entry(key, value), 0, x);
      GetPut(t, h, key, Entry(key, value), 1, x);
      GetPut(t, h, key, Entry(key, value), 2, x);
      if t.hash(h, x) == t.hash(h, key) {
        SameSlot(t, h, x, key);
      }
      assert FirstMatch(t, x);
    }
  }

  // ------------------------------------------------------------------ copying all entries

  /** The place of a slot among all slots of a table, page by page. */
  function Number(p: nat, i: nat): nat {
    p * 0x2_0000 + i
  }

  /** The table in which a key lives. */
  function Home(t: Table, key: nat): nat
    requires Shape(t)
  {
    if LiveIn(t, 0, key) then 0 else if LiveIn(t, 1, key) then 1 else 2
  }

  function NumberOf(t: Table, key: nat): nat
    requires Shape(t)
  {
    var idx := t.hash(Home(t, key), key);
    Number(PageOf(Home(t, key), idx), PlaceOf(idx))
  }

  /** `u` holds exactly the entries of the first `n` slots of `t`. */
  ghost predicate Copied(t: Table, u: Table, n: nat)
    requires Shape(t) && Shape(u)
  {
    forall x: nat :: Lookup(u, x) == if Lookup(t, x) != 0 && NumberOf(t, x) < n then Lookup(t, x) else 0
  }

  lemma NumberInjective(p: nat, i: nat, q: nat, j: nat)
    requires i < 0x2_0000 && j < 0x2_0000 && Number(p, i) == Number(q, j)
    ensures p == q && i == j
  {
  }

  lemma NumberUnique(t: Table, p: nat, i: nat, key: nat)
    requires TableOK(t) && p < |t.pages| && i < ENTRIES_PER_PAGE && Lookup(t, key) != 0 && NumberOf(t, key) == Number(p, i)
    ensures t.pages[p][i] == Entry(key, Lookup(t, key))
  {
    hide Number, PageOf, PlaceOf;
    var idx := t.hash(Home(t, key), key);
    SlotExists(t, Home(t, key), key);
    NumberInjective(PageOf(Home(t, key), idx), PlaceOf(idx), p, i);
  }

  lemma EntryNumber(t: Table, p: nat, i: nat)
    requires TableOK(t) && p < |t.pages| && i < ENTRIES_PER_PAGE && t.pages[p][i].value != 0
    ensures var e := t.pages[p][i]; Lookup(t, e.key) == e.value && NumberOf(t, e.key) == Number(p, i)
  {
    var e := t.pages[p][i];
    assert InPlace(t, p, i) && FirstMatch(t, e.key);
    assert LiveIn(t, p % 3, e.key);
    LookupLive(t, p % 3, e.key);
  }

  lemma NumberBound(t: Table, key: nat)
    requires Shape(t)
    ensures NumberOf(t, key) < |t.pages| * 0x2_0000
  {
    SlotExists(t, Home(t, key), key);
  }

  /** Copying one slot, with or without an entry. */
  lemma CopyStep(t: Table, u: Table, u': Table, p: nat, i: nat)
    requires TableOK(t) && Shape(u) && Shape(u') && p < |t.pages| && i < ENTRIES_PER_PAGE && Copied(t, u, Number(p, i))
    requires var e := t.pages[p][i];
             if e.value == 0 then u' == u
             else forall x: nat :: Lookup(u', x) == if x == e.key then e.value else Lookup(u, x)
    ensures Copied(t, u', Number(p, i) + 1)
  {
    var e := t.pages[p][i];
    if e.value != 0 {
      EntryNumber(t, p, i);
    }
    forall x: nat
      ensures Lookup(u', x) == if Lookup(t, x) != 0 && NumberOf(t, x) < Number(p, i) + 1 then Lookup(t, x) else 0
    {
      if Lookup(t, x) != 0 && NumberOf(t, x) == Number(p, i) {
        NumberUnique(t, p, i, x);
      }
    }
  }

  /** An entry that is about to be copied is not in the new table yet. */
  lemma NotYetCopied(t: Table, u: Table, p: nat, i: nat)
    requires TableOK(t) && Shape(u) && p < |t.pages| && i < ENTRIES_PER_PAGE && Copied(t, u, Number(p, i))
    requires t.pages[p][i].value != 0
    ensures Lookup(u, t.pages[p][i].key) == 0
  {
    EntryNumber(t, p, i);
  }

  lemma AllCopied(t: Table, u: Table)
    requires TableOK(t) && Shape(u) && Copied(t, u, |t.pages| * 0x2_0000)
    ensures forall x: nat :: Lookup(u, x) == Lookup(t, x)
  {
    forall x: nat ensures Lookup(u, x) == Lookup(t, x) {
      NumberBound(t, x);
    }
  }

  predicate AllZero(t: Table) {
    forall p | 0 <= p < |t.pages| :: forall i | 0 <= i < |t.pages[p]| :: t.pages[p][i] == ZERO
  }

  /** Fresh pages hold nothing, although every slot carries the key 0. */
  lemma EmptyTable(t: Table)
    requires Shape(t) && AllZero(t)
    ensures TableOK(t) && forall x: nat :: Lookup(t, x) == 0
  {
    forall h: nat, key: nat | h < 3 ensures Get(t, h, key) == ZERO {
      SlotExists(t, h, key);
    }
  }

  predicate PowerOfTwo(n: nat) {
    n == 1 || (n > 1 && n % 2 == 0 && PowerOfTwo(n / 2))
  }

  // ------------------------------------------------------------------ the walk of an insertion

  /** The rest of a round from table `h` on: the entry on its way goes into its slot, and what was there goes on. */
  ghost function Round(t: Table, key: nat, value: nat, h: nat): (r: (Table, nat, nat))
    requires Shape(t) && h <= 3
    ensures Shape(r.0)
    decreases 3 - h
  {
    if value == 0 || h == 3 then (t, key, value)
    else
      GetPut(t, h, key, Entry(key, value), h, key);
      Round(Put(t, h, key, Entry(key, value)), Get(t, h, key).key, Get(t, h, key).value, h + 1)
  }

  /** At most `n` rounds: the table, and the entry that is left over if its value is not null. */
  ghost function Walk(t: Table, key: nat, value: nat, n: nat): (r: (Table, nat, nat))
    requires Shape(t)
    ensures Shape(r.0)
    decreases n
  {
    if value == 0 || n == 0 then (t, key, value)
    else Walk(Round(t, key, value, 0).0, Round(t, key, value, 0).1, Round(t, key, value, 0).2, n - 1)
  }

  lemma WalkOn(t: Table, key: nat, value: nat, n: nat)
    requires Shape(t) && n > 0 && value != 0
    ensures var (u, k, v) := Round(t, key, value, 0);
            Walk(t, key, value, n) == Walk(u, k, v, n - 1) && (v == 0 ==> Walk(t, key, value, n) == (u, k, v))
  {
  }

  lemma WalkEnds(t: Table, key: nat, value: nat)
    requires Shape(t)
    ensures Walk(t, key, value, 0) == (t, key, value)
  {
  }

  // ------------------------------------------------------------------ counting entries

  /** The entries with a value among the first `n` slots of a page. */
  function CountPage(page: seq<Entry>, n: nat): nat
    requires n <= |page|
  {
    if n == 0 then 0 else CountPage(page, n - 1) + if page[n - 1].value != 0 then 1 else 0
  }

  /** The entries with a value on the first `n` pages. */
  function CountPages(pages: seq<seq<Entry>>, n: nat): nat
    requires n <= |pages|
  {
    if n == 0 then 0 else CountPages(pages, n - 1) + CountPage(pages[n - 1], |pages[n - 1]|)
  }

  function Entries(t: Table): nat {
    CountPages(t.pages, |t.pages|)
  }

  lemma {:induction false} CountPagePositive(page: seq<Entry>, n: nat, i: nat)
    requires i < n <= |page| && page[i].value != 0
    ensures CountPage(page, n) > 0
  {
    if i < n - 1 {
      CountPagePositive(page, n - 1, i);
    }
  }

  lemma {:induction false} CountPagesPositive(pages: seq<seq<Entry>>, n: nat, p: nat, i: nat)
    requires p < n <= |pages| && i < |pages[p]| && pages[p][i].value != 0
    ensures CountPages(pages, n) > 0
  {
    if p < n - 1 {
      CountPagesPositive(pages, n - 1, p, i);
    } else {
      CountPagePositive(pages[p], |pages[p]|, i);
    }
  }

  lemma {:induction false} NoneCounted(pages: seq<seq<Entry>>, n: nat, p: nat)
    requires p < n <= |pages| && CountPages(pages, n) == 0
    ensures CountPage(pages[p], |pages[p]|) == 0
  {
    if p < n - 1 {
      NoneCounted(pages, n - 1, p);
    }
  }

  /** A table that holds a key has an entry. */
  lemma HeldIsCounted(t: Table, key: nat)
    requires Shape(t) && Lookup(t, key) != 0
    ensures Entries(t) > 0
  {
    var h := Home(t, key);
    SlotExists(t, h, key);
    CountPagesPositive(t.pages, |t.pages|, PageOf(h, t.hash(h, key)), PlaceOf(t.hash(h, key)));
  }

  // ------------------------------------------------------------------ when a rehash changes the number of pages

  /** The number of pages after a rehash, as it is computed. */
  function PagesAfter(n: nat, size: int): nat {
    var total := n * 0x2_0000;
    if 4 * size / 5 > total then 2 * n else if n > 3 && size / 5 < total then n / 2 else n
  }

  /** The same as the comment has it: twice the pages above a usage of 80 percent, half of them below 20 percent. */
  function PagesIntended(n: nat, size: int): nat {
    var total := n * 0x2_0000;
    if 100 * size > 80 * total then 2 * n else if n > 3 && 100 * size < 20 * total then n / 2 else n
  }

  /** A table that is not overfull never grows, and shrinks whenever it has more than three pages. */
  lemma NeverGrows(n: nat, size: nat)
    requires 3 <= n && size <= n * 0x2_0000
    ensures PagesAfter(n, size) == if n > 3 then n / 2 else n
  {
  }

  /** So the number of pages is the intended one exactly below a usage of 20 percent, or for three pages up to 80 percent. */
  lemma IntendedExactly(n: nat, size: nat)
    requires 3 <= n && size <= n * 0x2_0000
    ensures PagesAfter(n, size) == PagesIntended(n, size) <==>
              if n > 3 then 5 * size < n * 0x2_0000 else 5 * size <= 4 * (n * 0x2_0000)
  {
    NeverGrows(n, size);
  }

  /** A full table of six pages is rehashed into three, which have room for half of its entries only. */
  lemma FullTableShrinks()
    ensures PagesAfter(6, 6 * 0x2_0000) == 3 && PagesIntended(6, 6 * 0x2_0000) == 12
  {
  }
}
