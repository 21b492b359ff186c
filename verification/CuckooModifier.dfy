/**
 The modifier of the hash table (util/CuckooHash.cpp): it starts on the pages of a table that concurrent readers use,
 copies a page before its first write, inserts by displacement, and rehashes into fresh pages when that fails.

 An insertion need not terminate.  `fuel` bounds how deep rehashes nest and how often one insertion rehashes; a method
 that runs out of it returns `done == false`.
 */
module CuckooModifier {
  import opened CuckooTable

  /** What the table holds together with an entry that is on its way; `v == 0` when there is none. */
  function Carry(t: Table, k: nat, v: nat, x: nat): nat
    requires Shape(t)
  {
    if v != 0 && x == k then v else Lookup(t, x)
  }

  ghost predicate SameCarry(t: Table, k: nat, v: nat, t': Table, k': nat, v': nat)
    requires Shape(t) && Shape(t')
  {
    forall x: nat :: Carry(t, k, v, x) == Carry(t', k', v', x)
  }

  lemma SameCarryTransitive(t1: Table, k1: nat, v1: nat, t2: Table, k2: nat, v2: nat, t3: Table, k3: nat, v3: nat)
    requires Shape(t1) && Shape(t2) && Shape(t3)
    requires SameCarry(t1, k1, v1, t2, k2, v2) && SameCarry(t2, k2, v2, t3, k3, v3)
    ensures SameCarry(t1, k1, v1, t3, k3, v3)
  {
    forall x: nat ensures Carry(t1, k1, v1, x) == Carry(t3, k3, v3, x) {
      assert Carry(t1, k1, v1, x) == Carry(t2, k2, v2, x);
    }
  }

  lemma ArrivedCarry(t: Table, k: nat, t': Table, key: nat, value: nat)
    requires Shape(t) && Shape(t') && SameCarry(t, k, 0, t', key, value) && value != 0
    ensures forall x: nat :: Lookup(t, x) == if x == key then value else Lookup(t', x)
  {
    forall x: nat ensures Lookup(t, x) == if x == key then value else Lookup(t', x) {
      assert Carry(t, k, 0, x) == Carry(t', key, value, x);
    }
  }

  lemma RehashedCarry(t: Table, u: Table, k: nat, v: nat, t': Table, key: nat, value: nat)
    requires Shape(t) && Shape(u) && Shape(t') && SameCarry(t, k, v, t', key, value)
    requires forall x: nat :: Lookup(u, x) == Lookup(t, x)
    ensures SameCarry(u, k, v, t', key, value)
  {
    forall x: nat ensures Carry(u, k, v, x) == Carry(t', key, value, x) {
      assert Carry(t, k, v, x) == Carry(t', key, value, x);
    }
  }

  /** What the pages hold. */
  ghost function ContentsOf(pages: seq<array<Entry>>): seq<seq<Entry>>
    reads pages
  {
    seq(|pages|, i requires 0 <= i < |pages| reads pages => pages[i][..])
  }

  lemma Third(n: nat, g: nat)
    requires n == 3 * g
    ensures n % 3 == 0 && n / 3 == g
  {
  }

  lemma HalfPower(g: nat) returns (k: nat)
    requires PowerOfTwo(g) && g > 1
    ensures g == 2 * k && PowerOfTwo(k)
  {
    k := g / 2;
  }

  lemma TwiceOrHalf(n: nat)
    requires n % 3 == 0 && PowerOfTwo(n / 3)
    ensures n > 0 && 2 * n % 3 == 0 && PowerOfTwo(2 * n / 3)
    ensures n > 3 ==> n / 2 % 3 == 0 && PowerOfTwo(n / 2 / 3)
  {
    var g := n / 3;
    assert PowerOfTwo(2 * g);
    Third(2 * n, 2 * g);
    if n > 3 {
      var k := HalfPower(g);
      assert n / 2 == 3 * k by { hide PowerOfTwo; }
      Third(n / 2, k);
    }
  }

  /** The pages from `k` on that belong to the base table. */
  ghost function Unretired(pages: seq<array<Entry>>, modified: seq<bool>, k: nat): set<array<Entry>>
    requires |pages| == |modified|
  {
    set i | k <= i < |pages| && !modified[i] :: pages[i]
  }

  lemma NextRetired(before: set<array<Entry>>, pages: seq<array<Entry>>, modified: seq<bool>, k: nat)
    requires |pages| == |modified| && k < |pages| && forall i, j | 0 <= i < j < |pages| :: pages[i] != pages[j]
    requires pages[k] !in before
    ensures before + Unretired(pages, modified, k) - {pages[k]} == before + Unretired(pages, modified, k + 1)
  {
  }

  lemma CountNext(pages: seq<seq<Entry>>, p: nat)
    requires p < |pages|
    ensures CountPages(pages, p + 1) == CountPages(pages, p) + CountPage(pages[p], |pages[p]|)
  {
  }

  lemma NoneUnretired(pages: seq<array<Entry>>, modified: seq<bool>)
    requires |pages| == |modified|
    ensures Unretired(pages, modified, |pages|) == {}
  {
  }

  class Modifier {
    /** The pages of the table that is being modified. */
    const base: seq<array<Entry>>
    /** The hash functions that the coming rehashes draw. */
    const supply: (nat, nat) -> nat
    var draws: nat
    var pages: seq<array<Entry>>
    var modified: seq<bool>
    var hash: (nat, nat) -> nat
    var size: int
    /** Pages to free once no reader uses them any more. */
    var toDelete: seq<array<Entry>>
    /** Pages given back at once. */
    ghost var freed: set<array<Entry>>
    /** Base pages that a rehash under way has replaced and not yet marked for deletion. */
    ghost var pending: set<array<Entry>>

    /** The pages that only the modifier uses are those it has copied or allocated. */
    ghost predicate Pages()
      reads this
    {
      && |modified| == |pages| && |pages| % 3 == 0 && PowerOfTwo(|pages| / 3)
      && (forall i | 0 <= i < |pages| :: pages[i].Length == ENTRIES_PER_PAGE && (modified[i] <==> pages[i] !in base))
      && (forall i, j | 0 <= i < j < |pages| :: pages[i] != pages[j])
      && (forall p | p in toDelete :: p in base) && (forall p | p in base :: p !in freed)
      && Marked()
    }

    /** No page in use is marked for deletion or freed, and every base page that is not in use is marked. */
    ghost predicate Marked()
      reads this
    {
      && (forall p | p in pages :: p !in toDelete && p !in pending && p !in freed)
      && (forall p | p in base :: p in pages || p in toDelete || p in pending)
    }

    ghost function Own(): set<array<Entry>>
      reads this
      requires |modified| == |pages|
    {
      set i | 0 <= i < |pages| && modified[i] :: pages[i]
    }

    /** No page of the base table is in use any more. */
    ghost predicate Private()
      reads this
    {
      forall i | 0 <= i < |modified| :: modified[i]
    }

    ghost function T(): Table
      reads this, pages
    {
      Table(ContentsOf(pages), hash)
    }

    ghost predicate Valid()
      reads this, pages
    {
      Pages() && TableOK(T())
    }

    constructor (base: seq<array<Entry>>, hash: (nat, nat) -> nat, size: int, supply: (nat, nat) -> nat)
      requires |base| % 3 == 0 && PowerOfTwo(|base| / 3)
      requires forall i | 0 <= i < |base| :: base[i].Length == ENTRIES_PER_PAGE
      requires forall i, j | 0 <= i < j < |base| :: base[i] != base[j]
      requires TableOK(Table(ContentsOf(base), hash))
      ensures Valid() && this.base == base && this.supply == supply && Own() == {} && pending == {}
      ensures T() == Table(ContentsOf(base), hash)
    {
      this.base, this.supply, this.hash, this.size := base, supply, hash, size;
      pages, modified, draws, toDelete, freed, pending := base, seq(|base|, _ => false), 0, [], {}, {};
    }

    /** Copies a page before its first write. */
    method Cow(p: nat)
      requires Pages() && p < |pages|
      modifies this`pages, this`modified, this`toDelete
      ensures Pages() && T() == old(T()) && p < |modified| && modified[p]
      ensures |pages| == old(|pages|) && fresh(Own() - old(Own()))
      ensures old(Private()) ==> Private()
    {
      if modified[p] {
        return;
      }
      ghost var before := ContentsOf(pages);
      var copy := new Entry[ENTRIES_PER_PAGE];
      forall i | 0 <= i < ENTRIES_PER_PAGE {
        copy[i] := pages[p][i];
      }
      assert copy !in base && copy !in pages && copy !in freed && copy !in pending;
      CowMarks(p, copy);
      toDelete := toDelete + [pages[p]];
      assert copy[..] == pages[p][..];
      modified, pages := modified[p := true], pages[p := copy];
      assert forall i | 0 <= i < |pages| :: pages[i][..] == before[i];
      assert ContentsOf(pages) == before;
    }

    lemma CowMarks(p: nat, copy: array<Entry>)
      requires Pages() && p < |pages| && !modified[p] && copy !in base && copy !in freed && copy !in pending
      ensures var pages', toDelete' := pages[p := copy], toDelete + [pages[p]];
              && (forall q | q in pages' :: q !in toDelete' && q !in pending && q !in freed)
              && (forall q | q in base :: q in pages' || q in toDelete' || q in pending)
    {
      var pages', toDelete' := pages[p := copy], toDelete + [pages[p]];
      forall q | q in pages' ensures q !in toDelete' && q !in pending && q !in freed {
        var i :| 0 <= i < |pages'| && pages'[i] == q;
        assert i != p ==> pages[i] == q && q != pages[p];
      }
      forall q | q in base ensures q in pages' || q in toDelete' || q in pending {
        if q in pages && q != pages[p] {
          var i :| 0 <= i < |pages| && pages[i] == q;
          assert pages'[i] == q;
        }
      }
    }

    /** Writes the slot of a key. */
    method Store(h: nat, key: nat, e: Entry)
      requires Pages() && Shape(T()) && h < 3
      modifies this`pages, this`modified, this`toDelete, Own()
      ensures Pages() && T() == Put(old(T()), h, key, e) && fresh(Own() - old(Own()))
      ensures old(Private()) ==> Private()
    {
      SlotExists(T(), h, key);
      var p, i := CuckooTable.PageOf(h, hash(h, key)), PlaceOf(hash(h, key));
      Cow(p);
      ghost var before := ContentsOf(pages);
      pages[p][i] := e;
      assert ContentsOf(pages) == before[p := before[p][i := e]];
    }

    method At(h: nat, key: nat) returns (e: Entry)
      requires Pages() && Shape(T()) && h < 3
      ensures e == CuckooTable.Get(T(), h, key)
    {
      SlotExists(T(), h, key);
      e := pages[CuckooTable.PageOf(h, hash(h, key))][PlaceOf(hash(h, key))];
    }

    method Get(key: nat) returns (value: nat)
      requires Valid()
      ensures value == Lookup(T(), key)
    {
      hide Lookup, FirstMatch, CuckooTable.Get;
      assert FirstMatch(T(), key);
      for h := 0 to 3
        invariant forall g: nat | g < h :: CuckooTable.Get(T(), g, key).key != key
      {
        var e := At(h, key);
        FirstSlot(T(), key, h);
        if e.key == key {
          return e.value;
        }
      }
      FirstSlot(T(), key, 3);
      return 0;
    }

    /** The loop of insert and remove that looks for a live key. */
    method Find(key: nat) returns (h: nat)
      requires Valid()
      ensures h <= 3 && (h < 3 ==> LiveIn(T(), h, key)) && (h == 3 <==> Lookup(T(), key) == 0)
    {
      h := 0;
      while h < 3
        invariant h <= 3 && forall g: nat | g < h :: !LiveIn(T(), g, key)
      {
        var e := At(h, key);
        if e.key == key && e.value != 0 {
          LookupLive(T(), h, key);
          return;
        }
        h := h + 1;
      }
    }

    method Remove(key: nat) returns (res: bool)
      requires Valid()
      modifies this, Own()
      ensures Valid() && fresh(Own() - old(Own())) && pending == old(pending)
      ensures forall p | p in base :: p[..] == old(p[..])
      ensures size == old(size) - if res then 1 else 0
      ensures res <==> Lookup(old(T()), key) != 0
      ensures forall x: nat :: Lookup(T(), x) == if x == key then 0 else Lookup(old(T()), x)
    {
      hide PowerOfTwo, Lookup, LiveIn;
      var h := Find(key);
      res := h < 3;
      if res {
        size := size - 1;
        Update(h, key, 0);
      }
    }

    /** Changes the value of a key where it lives. */
    method Update(h: nat, key: nat, value: nat)
      requires Valid() && h < 3 && LiveIn(T(), h, key)
      modifies this`pages, this`modified, this`toDelete, Own()
      ensures Valid() && fresh(Own() - old(Own()))
      ensures old(Private()) ==> Private()
      ensures forall p | p in base :: p[..] == old(p[..])
      ensures forall x: nat :: Lookup(T(), x) == if x == key then value else Lookup(old(T()), x)
    {
      UpdateStep(T(), h, key, value);
      Store(h, key, Entry(key, value));
    }

    // ---------------------------------------------------------------- insertion and rehash

    /** Twenty rounds through the three tables, each step displacing the entry it finds. */
    method TryPlace(key: nat, value: nat) returns (k: nat, v: nat)
      requires Valid() && value != 0 && Lookup(T(), key) == 0
      modifies this`pages, this`modified, this`toDelete, Own()
      ensures Valid() && fresh(Own() - old(Own()))
      ensures old(Private()) ==> Private()
      ensures v != 0 ==> Lookup(T(), k) == 0 && Entries(T()) > 0
      ensures SameCarry(T(), k, v, old(T()), key, value)
      ensures (T(), k, v) == Walk(old(T()), key, value, 20)
    {
      hide PowerOfTwo, Lookup, Marked, CountPages, Carry, Walk, Round;
      k, v := key, value;
      for i := 0 to 20
        invariant Valid() && fresh(Own() - old(Own())) && v != 0 && Lookup(T(), k) == 0 && (i > 0 ==> Entries(T()) > 0)
        invariant Walk(T(), k, v, 20 - i) == Walk(old(T()), key, value, 20)
        invariant (old(Private()) ==> Private()) && SameCarry(T(), k, v, old(T()), key, value)
      {
        ghost var t, k', v' := T(), k, v;
        WalkOn(T(), k, v, 20 - i);
        k, v := PlaceRound(k, v);
        SameCarryTransitive(T(), k, v, t, k', v', old(T()), key, value);
        if v == 0 {
          return;
        }
      }
      WalkEnds(T(), k, v);
    }

    /** One round: the entry on its way goes into table 0, what it displaces into table 1, and so on. */
    method PlaceRound(key: nat, value: nat) returns (k: nat, v: nat)
      requires Valid() && value != 0 && Lookup(T(), key) == 0
      modifies this`pages, this`modified, this`toDelete, Own()
      ensures Valid() && fresh(Own() - old(Own()))
      ensures old(Private()) ==> Private()
      ensures v != 0 ==> Lookup(T(), k) == 0 && Entries(T()) > 0
      ensures SameCarry(T(), k, v, old(T()), key, value)
      ensures (T(), k, v) == Round(old(T()), key, value, 0)
    {
      hide PowerOfTwo, Lookup, CountPages;
      k, v := key, value;
      for h := 0 to 3
        invariant Valid() && fresh(Own() - old(Own())) && v != 0 && Placeable(T(), h, k) && (h > 0 ==> Entries(T()) > 0)
        invariant Round(T(), k, v, h) == Round(old(T()), key, value, 0)
        invariant (old(Private()) ==> Private()) && SameCarry(T(), k, v, old(T()), key, value)
      {
        ghost var t, k', v' := T(), k, v;
        k, v := Place(h, k, v);
        HeldIsCounted(T(), k');
        SameCarryTransitive(T(), k, v, t, k', v', old(T()), key, value);
        if v == 0 {
          return;
        }
      }
    }

    /** One step: puts the entry into its slot and hands out what was there. */
    method Place(h: nat, key: nat, value: nat) returns (k: nat, v: nat)
      requires Valid() && value != 0 && h < 3 && Placeable(T(), h, key)
      modifies this`pages, this`modified, this`toDelete, Own()
      ensures Valid() && fresh(Own() - old(Own()))
      ensures old(Private()) ==> Private()
      ensures v != 0 ==> k != key && Placeable(T(), h + 1, k)
      ensures Lookup(T(), key) == value
      ensures T() == Put(old(T()), h, key, Entry(key, value))
      ensures Entry(k, v) == CuckooTable.Get(old(T()), h, key)
      ensures SameCarry(T(), k, v, old(T()), key, value)
    {
      PlaceStep(T(), h, key, value);
      var e := At(h, key);
      if e.value != 0 {
        SlotLives(T(), h, key);
        LookupLive(T(), h, e.key);
      }
      Store(h, key, Entry(key, value));
      return e.key, e.value;
    }

    /** With enough fuel it inserts a new key, or replaces the value of a key it has; otherwise nothing changes. */
    method Insert(key: nat, value: nat, replace: bool, fuel: nat) returns (res: bool, done: bool)
      requires Valid() && value != 0
      modifies this, Own()
      ensures done ==> Valid() && fresh(Own() - old(Own()))
      ensures done && old(Private()) ==> Private()
      ensures done ==> pending == old(pending)
      ensures done ==> var right := old(size) + if res && !replace then 1 else 0;
                       draws >= old(draws) && size >= right && (size == right <==> draws == old(draws))
      ensures forall p | p in base :: p[..] == old(p[..])
      ensures done ==> (res <==> (Lookup(old(T()), key) != 0 <==> replace))
      ensures done ==> forall x: nat :: Lookup(T(), x) == if res && x == key then value else Lookup(old(T()), x)
      ensures Lookup(old(T()), key) != 0 || replace || Walk(old(T()), key, value, 20).2 == 0 ==> done && draws == old(draws)
      decreases fuel, 2
    {
      hide Lookup, Walk, Round;
      var h := Find(key);
      if h < 3 {
        if replace {
          Update(h, key, value);
        }
        return replace, true;
      }
      if replace {
        return false, true;
      }
      done := Displace(key, value, fuel);
      if done {
        size := size + 1;
      }
      return done, done;
    }

    /** Twenty rounds, then a rehash, until the entry on its way has found a free slot. */
    method Displace(key: nat, value: nat, fuel: nat) returns (done: bool)
      requires Valid() && value != 0 && Lookup(T(), key) == 0
      modifies this, Own()
      ensures done ==> Valid() && fresh(Own() - old(Own()))
      ensures done && old(Private()) ==> Private()
      ensures done ==> pending == old(pending)
      ensures done ==> draws >= old(draws) && size >= old(size) && (size == old(size) <==> draws == old(draws))
      ensures done ==> forall x: nat :: Lookup(T(), x) == if x == key then value else Lookup(old(T()), x)
      ensures Walk(old(T()), key, value, 20).2 == 0 ==> done && draws == old(draws)
      decreases fuel, 1
    {
      hide Lookup, Walk, Round, Marked;
      var left: nat := fuel;
      var k, v := key, value;
      while true
        invariant Valid() && fresh(Own() - old(Own())) && v != 0 && Lookup(T(), k) == 0 && left <= fuel
        invariant draws >= old(draws) && size >= old(size) && (size == old(size) <==> draws == old(draws))
        invariant pending == old(pending) && (old(Private()) ==> Private()) && SameCarry(T(), k, v, old(T()), key, value)
        invariant Walk(old(T()), key, value, 20).2 == 0 ==> T() == old(T()) && (k, v) == (key, value) && draws == old(draws)
        decreases left
      {
        ghost var t, k', v' := T(), k, v;
        k, v, done := Attempt(k, v, left);
        if !done {
          return;
        }
        SameCarryTransitive(T(), k, v, t, k', v', old(T()), key, value);
        if v == 0 {
          ArrivedCarry(T(), k, old(T()), key, value);
          return;
        }
        left := left - 1;
      }
    }

    method Attempt(key: nat, value: nat, fuel: nat) returns (k: nat, v: nat, done: bool)
      requires Valid() && value != 0 && Lookup(T(), key) == 0
      modifies this, Own()
      ensures done ==> Valid() && fresh(Own() - old(Own())) && SameCarry(T(), k, v, old(T()), key, value)
      ensures done && old(Private()) ==> Private()
      ensures done ==> pending == old(pending)
      ensures done ==> draws >= old(draws) && size >= old(size) && (size == old(size) <==> draws == old(draws))
      ensures done && v != 0 ==> Lookup(T(), k) == 0 && fuel > 0
      ensures Walk(old(T()), key, value, 20).2 == 0 ==> done && draws == old(draws) && v == 0
      decreases fuel, 0
    {
      hide Lookup, Walk, Round;
      k, v := TryPlace(key, value);
      if v == 0 {
        return k, v, true;
      }
      if fuel == 0 {
        return k, v, false;
      }
      ghost var t := T();
      done := Rehash(fuel - 1);
      if done {
        RehashedCarry(t, T(), k, v, old(T()), key, value);
      }
    }

    /** Moves all entries into fresh pages with new hash functions. */
    method Rehash(fuel: nat) returns (done: bool)
      requires Valid()
      modifies this
      ensures done ==> Valid() && fresh(Own()) && Private() && pending == old(pending)
      ensures done ==> draws > old(draws) && size >= old(size) + Entries(old(T()))
      ensures done ==> forall x: nat :: Lookup(T(), x) == Lookup(old(T()), x)
      ensures Entries(old(T())) == 0 ==> done
      decreases fuel, 5
    {
      hide PowerOfTwo, Lookup, Marked, Unretired, Rehashing, Valid;
      ghost var t, before := T(), pending;
      var oldPages, oldModified := StartRehash();
      for p := 0 to |oldPages|
        invariant Rehashing(t, oldPages, p) && |modified| == |pages| && fresh(Own())
        invariant draws > old(draws) && size >= old(size) + CountPages(t.pages, p)
        invariant pending == before + Unretired(oldPages, oldModified, p)
      {
        done := RehashPage(t, oldPages, oldModified[p], p, fuel);
        if !done {
          ghost var none := CountPages(t.pages, |t.pages|) == 0;
          if none {
            NoneCounted(t.pages, |t.pages|, p);
          }
          return;
        }
        CountNext(t.pages, p);
        NextRetired(before, oldPages, oldModified, p);
      }
      Ended(t, oldPages);
      NoneUnretired(oldPages, oldModified);
      done := true;
    }

    /** Replaces the pages by new ones and hands out the old ones. */
    method StartRehash() returns (oldPages: seq<array<Entry>>, oldModified: seq<bool>)
      requires Valid()
      modifies this
      ensures oldPages == old(pages) && oldModified == old(modified)
      ensures Rehashing(old(T()), oldPages, 0) && |modified| == |pages| && fresh(Own())
      ensures draws > old(draws) && size == old(size) && pending == old(pending) + Unretired(oldPages, oldModified, 0)
      ensures |oldModified| == |oldPages| && (forall i | 0 <= i < |oldPages| :: oldModified[i] <==> oldPages[i] !in base)
      ensures forall i, j | 0 <= i < j < |oldPages| :: oldPages[i] != oldPages[j]
      ensures forall p | p in oldPages :: p !in old(pending)
    {
      hide PowerOfTwo, Lookup, Marked, Unretired;
      ghost var t := T();
      oldPages, oldModified := pages, modified;
      InUseIsUnmarked();
      var numPages := NumPages();
      Reset(numPages);
      Begun(t, oldPages);
    }

    /** The first `p` pages of the old table `t` have been inserted into the new one. */
    ghost predicate Rehashing(t: Table, oldPages: seq<array<Entry>>, p: nat)
      reads this, pages, oldPages
    {
      && Valid() && Private() && TableOK(t) && ContentsOf(oldPages) == t.pages && p <= |oldPages|
      && (forall q | q in oldPages :: q !in Own()) && Copied(t, T(), Number(p, 0))
    }

    lemma Begun(t: Table, oldPages: seq<array<Entry>>)
      requires Valid() && Private() && TableOK(t) && ContentsOf(oldPages) == t.pages
      requires (forall q | q in oldPages :: q !in Own()) && forall x: nat :: Lookup(T(), x) == 0
      ensures Rehashing(t, oldPages, 0)
    {
    }

    lemma Ended(t: Table, oldPages: seq<array<Entry>>)
      requires Rehashing(t, oldPages, |oldPages|)
      ensures Valid() && Private() && forall x: nat :: Lookup(T(), x) == Lookup(t, x)
    {
      AllCopied(t, T());
    }

    /** Inserts the entries of one page of the old table and gives the page back. */
    method RehashPage(ghost t: Table, oldPages: seq<array<Entry>>, own: bool, p: nat, fuel: nat) returns (done: bool)
      requires Rehashing(t, oldPages, p) && p < |oldPages| && (own <==> oldPages[p] !in base)
      modifies this, Own()
      ensures done ==> Rehashing(t, oldPages, p + 1) && |modified| == |pages| && fresh(Own() - old(Own()))
      ensures done ==> pending == old(pending) - {oldPages[p]}
      ensures done ==> draws >= old(draws) && size >= old(size) + CountPage(t.pages[p], |t.pages[p]|)
      ensures CountPage(t.pages[p], |t.pages[p]|) == 0 ==> done
      decreases fuel, 4
    {
      hide PowerOfTwo, Lookup, Copied;
      done := CopyPage(t, oldPages, p, fuel);
      if done {
        OwnPages(oldPages[p]);
        Retire(oldPages[p], own);
      }
    }

    lemma InUseIsUnmarked()
      requires Pages()
      ensures forall p | p in pages :: p !in pending
    {
    }

    lemma OwnPages(page: array<Entry>)
      requires |modified| == |pages| && Private() && page !in Own()
      ensures page !in pages
    {
    }

    /** A page that only the modifier used is freed, one of the base table only marked. */
    method Retire(page: array<Entry>, own: bool)
      requires Valid() && (own <==> page !in base) && page !in pages
      modifies this`freed, this`toDelete, this`pending
      ensures Valid() && T() == old(T()) && Own() == old(Own())
      ensures pending == old(pending) - {page}
      ensures if own then page in freed else page in toDelete
    {
      if own {
        freed, pending := freed + {page}, pending - {page};
      } else {
        toDelete, pending := toDelete + [page], pending - {page};
      }
    }

    /** Twice or half the pages, depending on the usage. */
    method NumPages() returns (n: nat)
      requires Valid()
      ensures n > 0 && n % 3 == 0 && PowerOfTwo(n / 3)
      ensures n == PagesAfter(|pages|, size)
    {
      hide PowerOfTwo, ContentsOf;
      n := |pages|;
      TwiceOrHalf(n);
      var total := n * 0x2_0000;
      if 4 * size / 5 > total {
        n := 2 * n;
      } else if n > 3 && size / 5 < total {
        n := n / 2;
      }
    }

    /** Replaces the pages by empty ones and draws hash functions. */
    method Reset(n: nat)
      requires n > 0 && n % 3 == 0 && PowerOfTwo(n / 3) && Pages()
      modifies this`pages, this`modified, this`hash, this`draws, this`pending
      ensures draws > old(draws)
      ensures pending == old(pending) + Unretired(old(pages), old(modified), 0)
      ensures Valid() && fresh(Own()) && Private() && forall x: nat :: Lookup(T(), x) == 0
    {
      var ps := Allocate(n);
      pending := pending + Unretired(pages, modified, 0);
      pages, modified := ps, seq(n, _ => true);
      var capacity, draw, s := n / 3 * 0x2_0000, draws, supply;
      hash := (h: nat, key: nat) => s(draw + h, key) % capacity;
      draws := draws + 3;
      EmptyTable(T());
    }

    static method Allocate(n: nat) returns (ps: seq<array<Entry>>)
      ensures |ps| == n && forall i | 0 <= i < n :: fresh(ps[i]) && ps[i].Length == ENTRIES_PER_PAGE
      ensures forall i, j | 0 <= i < j < n :: ps[i] != ps[j]
      ensures forall i | 0 <= i < n :: forall k | 0 <= k < ps[i].Length :: ps[i][k] == ZERO
    {
      ps := [];
      while |ps| < n
        invariant |ps| <= n && (forall i | 0 <= i < |ps| :: fresh(ps[i]) && ps[i].Length == ENTRIES_PER_PAGE)
        invariant forall i, j | 0 <= i < j < |ps| :: ps[i] != ps[j]
        invariant forall i | 0 <= i < |ps| :: forall k | 0 <= k < ps[i].Length :: ps[i][k] == ZERO
      {
        var page := new Entry[ENTRIES_PER_PAGE](_ => ZERO);
        ps := ps + [page];
      }
    }

    /** Inserts the entries of one page of the old table. */
    method CopyPage(ghost t: Table, oldPages: seq<array<Entry>>, p: nat, fuel: nat) returns (done: bool)
      requires Valid() && TableOK(t) && ContentsOf(oldPages) == t.pages && p < |oldPages|
      requires forall i | 0 <= i < |oldPages| :: oldPages[i] !in Own()
      requires Copied(t, T(), Number(p, 0))
      modifies this, Own()
      ensures done ==> Valid() && fresh(Own() - old(Own())) && Copied(t, T(), Number(p + 1, 0))
      ensures done && old(Private()) ==> Private()
      ensures done ==> pending == old(pending)
      ensures done ==> draws >= old(draws) && size >= old(size) + CountPage(t.pages[p], |t.pages[p]|)
      ensures CountPage(t.pages[p], |t.pages[p]|) == 0 ==> done
      decreases fuel, 3
    {
      hide PowerOfTwo, Lookup, Marked, Copied, Walk;
      var page := oldPages[p];
      assert page[..] == t.pages[p];
      for i := 0 to ENTRIES_PER_PAGE
        invariant Valid() && fresh(Own() - old(Own())) && page[..] == t.pages[p]
        invariant draws >= old(draws) && size >= old(size) + CountPage(t.pages[p], i)
        invariant pending == old(pending) && (old(Private()) ==> Private()) && Copied(t, T(), Number(p, i))
      {
        assert page[i] == t.pages[p][i];
        ghost var before := T();
        if page[i].value != 0 {
          NotYetCopied(t, T(), p, i);
          var res, ok := Insert(page[i].key, page[i].value, false, fuel);
          if !ok {
            CountPagePositive(t.pages[p], |t.pages[p]|, i);
            return false;
          }
        }
        CopyStep(t, before, T(), p, i);
      }
      done := true;
    }
  }
}
