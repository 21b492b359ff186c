/**
 The shared scan: a batch of queries is parsed into one syntax tree (LLVMScanBase, util/LLVMScan.cpp) and compiled into
 a program of stores into a flat result array (LLVMRowScanBuilder, util/LLVMRowScan.cpp).

 Slots below the number of queries hold the results, the slots above hold conjuncts.  Queries with the same selection
 share their conjuncts.  A test of a column is an arbitrary boolean function of the row.
 */
module ScanCompiler {

  // ------------------------------------------------------------------ queries and what they mean

  /** A predicate inside a query: a test of its column and the conjunct it belongs to. */
  datatype Atom = Atom(test: nat, conjunct: nat)

  datatype Column = Column(id: nat, atoms: seq<Atom>)

  datatype Query = Query(baseVersion: nat, version: nat, numConjunct: nat, shift: nat, modulo: nat, number: nat,
                         columns: seq<Column>)

  /** A predicate with its column and a slot of the result array. */
  datatype Predicate = Predicate(column: nat, test: nat, conjunct: nat)

  datatype Row = Row(holds: (nat, nat) -> bool, key: nat, from: nat, to: nat)

  function Pow2(n: nat): (r: nat)
    ensures r > 0
  {
    if n == 0 then 1 else 2 * Pow2(n - 1)
  }

  /** The version and the partition filter. */
  predicate InWindow(row: Row, baseVersion: nat, version: nat) {
    row.from <= version && row.to > baseVersion
  }

  /** The read set of a query's snapshot, as far as the filter knows it: all versions up to the base version and none above
      the version of the query. */
  ghost predicate SnapshotOf(q: Query, snapshot: nat -> bool) {
    (forall u: nat | u <= q.baseVersion :: snapshot(u)) && (forall u: nat | q.version < u :: !snapshot(u))
  }

  /** The version filter keeps exactly the rows that some such snapshot reads: it drops none that the query reads. */
  lemma WindowExactly(row: Row, q: Query)
    requires q.baseVersion <= q.version && row.from < row.to
    ensures InWindow(row, q.baseVersion, q.version) <==>
              exists snapshot: nat -> bool :: SnapshotOf(q, snapshot) && snapshot(row.from) && !snapshot(row.to)
  {
    if InWindow(row, q.baseVersion, q.version) {
      var snapshot := (u: nat) => u <= q.baseVersion || u == row.from;
      assert SnapshotOf(q, snapshot) && snapshot(row.from) && !snapshot(row.to);
    }
  }

  predicate InPartition(row: Row, shift: nat, modulo: nat, number: nat) {
    modulo != 0 ==> (row.key / Pow2(shift)) % modulo == number
  }

  /** The partitions of a modulus split the rows: every row is in the partition of exactly one number. */
  lemma PartitionIsUnique(row: Row, shift: nat, modulo: nat)
    requires modulo > 0
    ensures exists n: nat | n < modulo :: InPartition(row, shift, modulo, n)
    ensures forall m: nat, n: nat | InPartition(row, shift, modulo, m) && InPartition(row, shift, modulo, n) :: m == n
  {
    assert InPartition(row, shift, modulo, (row.key / Pow2(shift)) % modulo);
  }

  /** The first 2^shift keys are in partition 0, every block of 2^shift keys is in one partition, and the next block is in
      the next one; without a modulus every row is taken. */
  lemma PartitionsTakeTurns(row: Row, next: Row, shift: nat, modulo: nat, number: nat)
    requires next.key == row.key + Pow2(shift) && InPartition(row, shift, modulo, number) && number < modulo
    ensures InPartition(next, shift, modulo, if number + 1 == modulo then 0 else number + 1)
  {
    hide Pow2;
    var p := Pow2(shift);
    var q := row.key / p;
    NextQuotient(row.key, p);
    NextRemainder(q, modulo);
  }

  /** A key shifted by one bit more is half of it. */
  lemma ShiftHalves(key: nat, shift: nat)
    ensures Pow2(0) == 1 && key / Pow2(shift + 1) == key / Pow2(shift) / 2
  {
    var p := Pow2(shift);
    var a, b := key / p, key % p;
    var c, d := a / 2, a % 2;
    assert key == a * p + b && a == 2 * c + d;
    assert a * p == c * (2 * p) + d * p;
    QuotientOf(c, 2 * p, d * p + b, key);
  }

  lemma FirstBlock(row: Row, shift: nat, modulo: nat)
    requires row.key < Pow2(shift)
    ensures InPartition(row, shift, modulo, 0)
    ensures forall n: nat :: InPartition(row, shift, 0, n)
  {
    QuotientOf(0, Pow2(shift), row.key, row.key);
  }

  lemma Gap(k: int, m: nat)
    ensures k >= 1 ==> k * m >= m
    ensures k <= -1 ==> k * m <= 0 - m
  {
    if k >= 1 {
      assert k * m == m + (k - 1) * m;
    } else if k <= -1 {
      assert k * m == (k + 1) * m - m;
    }
  }

  lemma QuotientOf(q: nat, m: nat, r: nat, n: nat)
    requires r < m && n == q * m + r
    ensures n / m == q && n % m == r
  {
    var q' := n / m;
    assert (q - q') * m == n % m - r;
    Gap(q - q', m);
  }

  lemma NextQuotient(n: nat, p: nat)
    requires p > 0
    ensures (n + p) / p == n / p + 1
  {
    assert n == n / p * p + n % p && (n / p + 1) * p == n / p * p + p;
    QuotientOf(n / p + 1, p, n % p, n + p);
  }

  lemma NextRemainder(b: nat, m: nat)
    requires m > 0
    ensures (b + 1) % m == if b % m + 1 == m then 0 else b % m + 1
  {
    var q, r := b / m, b % m;
    assert b == q * m + r;
    if r + 1 == m {
      assert b + 1 == (q + 1) * m;
      QuotientOf(q + 1, m, 0, b + 1);
    } else {
      QuotientOf(q, m, r + 1, b + 1);
    }
  }

  predicate Holds(p: Predicate, row: Row) {
    row.holds(p.column, p.test)
  }

  /** The predicates of a selection, with its conjuncts starting at `offset`. */
  ghost function Predicates(columns: seq<Column>, offset: nat): set<Predicate> {
    set i, j | 0 <= i < |columns| && 0 <= j < |columns[i].atoms| ::
      Predicate(columns[i].id, columns[i].atoms[j].test, offset + columns[i].atoms[j].conjunct)
  }

  ghost predicate Satisfied(ps: set<Predicate>, c: nat, row: Row) {
    exists p | p in ps :: p.conjunct == c && Holds(p, row)
  }

  /** The meaning of a query: its conjunctive normal form, the version filter and the partition filter. */
  ghost predicate Accepts(q: Query, row: Row) {
    && InWindow(row, q.baseVersion, q.version) && InPartition(row, q.shift, q.modulo, q.number)
    && forall k: nat | k < q.numConjunct :: Satisfied(Predicates(q.columns, 0), k, row)
  }

  /** Some predicate has conjunct `c`. */
  ghost predicate Used(ps: set<Predicate>, c: nat) {
    exists p | p in ps :: p.conjunct == c
  }

  /** Every conjunct has a predicate and every predicate a conjunct. */
  ghost predicate WellFormed(q: Query) {
    && (forall k: nat | k < q.numConjunct :: Used(Predicates(q.columns, 0), k))
    && (forall p | p in Predicates(q.columns, 0) :: p.conjunct < q.numConjunct)
  }

  lemma ShiftPredicate(columns: seq<Column>, offset: nat, p: Predicate)
    requires p in Predicates(columns, 0)
    ensures p.(conjunct := offset + p.conjunct) in Predicates(columns, offset)
  {
    var i, j :| 0 <= i < |columns| && 0 <= j < |columns[i].atoms|
                && p == Predicate(columns[i].id, columns[i].atoms[j].test, 0 + columns[i].atoms[j].conjunct);
    assert p.(conjunct := offset + p.conjunct)
        == Predicate(columns[i].id, columns[i].atoms[j].test, offset + columns[i].atoms[j].conjunct);
  }

  lemma UnshiftPredicate(columns: seq<Column>, offset: nat, p: Predicate)
    requires p in Predicates(columns, offset)
    ensures p.conjunct >= offset && p.(conjunct := p.conjunct - offset) in Predicates(columns, 0)
  {
    var i, j :| 0 <= i < |columns| && 0 <= j < |columns[i].atoms|
                && p == Predicate(columns[i].id, columns[i].atoms[j].test, offset + columns[i].atoms[j].conjunct);
    assert p.(conjunct := p.conjunct - offset)
        == Predicate(columns[i].id, columns[i].atoms[j].test, 0 + columns[i].atoms[j].conjunct);
  }

  lemma NotMore(q: Query, r: Query)
    requires WellFormed(q) && WellFormed(r) && q.columns == r.columns
    ensures q.numConjunct <= r.numConjunct
  {
    if q.numConjunct > 0 {
      var last: nat := q.numConjunct - 1;
      assert Used(Predicates(q.columns, 0), last);
      var p :| p in Predicates(q.columns, 0) && p.conjunct == last;
    }
  }

  /** The same selection means the same number of conjuncts: what sharing relies on. */
  lemma SameSelection(q: Query, r: Query)
    requires WellFormed(q) && WellFormed(r) && q.columns == r.columns
    ensures q.numConjunct == r.numConjunct
  {
    NotMore(q, r);
    NotMore(r, q);
  }

  // ------------------------------------------------------------------ the syntax tree

  datatype QueryAst = QueryAst(baseVersion: nat, version: nat, shared: bool, offset: nat, numConjunct: nat,
                               shift: nat, modulo: nat, number: nat)

  datatype Properties = Properties(queryIndex: nat, count: nat)

  datatype Field = Field(id: nat, preds: seq<Predicate>)

  /** `props` has one entry for every slot of the result array. */
  datatype Ast = Ast(queries: seq<QueryAst>, props: seq<Properties>, fields: seq<Field>)

  function AstOf(q: Query, offset: nat): QueryAst {
    QueryAst(q.baseVersion, q.version, false, offset, q.numConjunct, q.shift, q.modulo, q.number)
  }

  ghost function Members(fields: seq<Field>): set<Predicate> {
    set i, j | 0 <= i < |fields| && 0 <= j < |fields[i].preds| :: fields[i].preds[j]
  }

  predicate FieldsOK(fields: seq<Field>) {
    && (forall i, j | 0 <= i < j < |fields| :: fields[i].id < fields[j].id)
    && (forall i, j | 0 <= i < |fields| && 0 <= j < |fields[i].preds| :: fields[i].preds[j].column == fields[i].id)
  }

  /** The counts tell slots without predicate, with one predicate and with several predicates apart. */
  ghost predicate CountsOK(props: seq<Properties>, ps: set<Predicate>) {
    && (forall p | p in ps :: p.conjunct < |props| && props[p.conjunct].count > 0)
    && (forall c: nat | c < |props| && props[c].count > 0 :: Used(ps, c))
    && (forall p, p' | p in ps && p' in ps && p.conjunct == p'.conjunct && props[p.conjunct].count == 1 :: p == p')
  }

  /** The number of predicates of a field that belong to conjunct `c`. */
  function Occurs(preds: seq<Predicate>, c: nat): nat {
    if preds == [] then 0 else Occurs(preds[..|preds| - 1], c) + if preds[|preds| - 1].conjunct == c then 1 else 0
  }

  function OccursIn(fields: seq<Field>, c: nat): nat {
    if fields == [] then 0 else Occurs(fields[0].preds, c) + OccursIn(fields[1..], c)
  }

  /** Every slot counts its predicates. */
  predicate Counted(props: seq<Properties>, fields: seq<Field>) {
    forall c: nat | c < |props| :: props[c].count == OccursIn(fields, c)
  }

  lemma {:induction false} OccursInserted(fields: seq<Field>, k: nat, id: nat, c: nat)
    requires k <= |fields|
    ensures OccursIn(fields[..k] + [Field(id, [])] + fields[k..], c) == OccursIn(fields, c)
  {
    var out := fields[..k] + [Field(id, [])] + fields[k..];
    if k == 0 {
      assert out[1..] == fields && Occurs([], c) == 0;
    } else {
      assert fields[1..][..k - 1] == fields[..k][1..] && fields[1..][k - 1..] == fields[k..];
      assert out[1..] == fields[1..][..k - 1] + [Field(id, [])] + fields[1..][k - 1..];
      OccursInserted(fields[1..], k - 1, id, c);
    }
  }

  lemma {:induction false} OccursAppended(fields: seq<Field>, k: nat, p: Predicate, c: nat)
    requires k < |fields|
    ensures OccursIn(fields[k := fields[k].(preds := fields[k].preds + [p])], c)
            == OccursIn(fields, c) + if p.conjunct == c then 1 else 0
  {
    var out := fields[k := fields[k].(preds := fields[k].preds + [p])];
    if k == 0 {
      assert out[1..] == fields[1..];
      assert (fields[0].preds + [p])[..|fields[0].preds + [p]| - 1] == fields[0].preds;
    } else {
      assert out[1..] == fields[1..][k - 1 := fields[1..][k - 1].(preds := fields[1..][k - 1].preds + [p])];
      OccursAppended(fields[1..], k - 1, p, c);
    }
  }

  lemma {:induction false} NoneOccurs(fields: seq<Field>, c: nat)
    requires forall i, j | 0 <= i < |fields| && 0 <= j < |fields[i].preds| :: fields[i].preds[j].conjunct != c
    ensures OccursIn(fields, c) == 0
  {
    if fields != [] {
      NoneIn(fields[0].preds, c);
      NoneOccurs(fields[1..], c);
    }
  }

  lemma {:induction false} NoneIn(preds: seq<Predicate>, c: nat)
    requires forall j | 0 <= j < |preds| :: preds[j].conjunct != c
    ensures Occurs(preds, c) == 0
  {
    if preds != [] {
      NoneIn(preds[..|preds| - 1], c);
    }
  }

  /** Finds the field, or adds it in the order of the field identifiers. */
  method Locate(fields: seq<Field>, id: nat) returns (out: seq<Field>, k: nat)
    requires FieldsOK(fields)
    ensures FieldsOK(out) && k < |out| && out[k].id == id && Members(out) == Members(fields)
    ensures forall c: nat :: OccursIn(out, c) == OccursIn(fields, c)
  {
    k := 0;
    while k < |fields| && fields[k].id < id
      invariant k <= |fields| && forall i | 0 <= i < k :: fields[i].id < id
    {
      k := k + 1;
    }
    if k < |fields| && fields[k].id == id {
      return fields, k;
    }
    out := fields[..k] + [Field(id, [])] + fields[k..];
    MembersInserted(fields, k, id);
    forall c: nat ensures OccursIn(out, c) == OccursIn(fields, c) {
      OccursInserted(fields, k, id, c);
    }
  }

  lemma MembersInserted(fields: seq<Field>, k: nat, id: nat)
    requires k <= |fields|
    ensures Members(fields[..k] + [Field(id, [])] + fields[k..]) == Members(fields)
  {
    var out := fields[..k] + [Field(id, [])] + fields[k..];
    forall p | p in Members(out) ensures p in Members(fields) {
      var i, j :| 0 <= i < |out| && 0 <= j < |out[i].preds| && out[i].preds[j] == p;
      assert out[i] == fields[if i < k then i else i - 1];
    }
    forall p | p in Members(fields) ensures p in Members(out) {
      var i, j :| 0 <= i < |fields| && 0 <= j < |fields[i].preds| && fields[i].preds[j] == p;
      assert out[if i < k then i else i + 1] == fields[i];
    }
  }

  lemma MembersAppended(fields: seq<Field>, k: nat, p: Predicate)
    requires k < |fields|
    ensures Members(fields[k := fields[k].(preds := fields[k].preds + [p])]) == Members(fields) + {p}
  {
    var out := fields[k := fields[k].(preds := fields[k].preds + [p])];
    forall x | x in Members(out) ensures x in Members(fields) + {p} {
      var i, j :| 0 <= i < |out| && 0 <= j < |out[i].preds| && out[i].preds[j] == x;
      if i == k && j == |fields[k].preds| {
        assert x == p;
      } else {
        assert fields[i].preds[j] == x;
      }
    }
    forall x | x in Members(fields) ensures x in Members(out) {
      var i, j :| 0 <= i < |fields| && 0 <= j < |fields[i].preds| && fields[i].preds[j] == x;
      assert out[i].preds[j] == x;
    }
    assert out[k].preds[|fields[k].preds|] == p;
  }

  lemma CountsAppended(props: seq<Properties>, ps: set<Predicate>, p: Predicate)
    requires CountsOK(props, ps) && p.conjunct < |props|
    ensures CountsOK(props[p.conjunct := props[p.conjunct].(count := props[p.conjunct].count + 1)], ps + {p})
  {
    var props' := props[p.conjunct := props[p.conjunct].(count := props[p.conjunct].count + 1)];
    forall c: nat | c < |props'| && props'[c].count > 0 ensures Used(ps + {p}, c) {
      if c == p.conjunct {
        assert p in ps + {p};
      } else {
        assert Used(ps, c);
        var x :| x in ps && x.conjunct == c;
        assert x in ps + {p};
      }
    }
  }

  /** The slots keep their query. */
  predicate SameQueries(props: seq<Properties>, props': seq<Properties>) {
    |props| == |props'| && forall c | 0 <= c < |props| :: props'[c].queryIndex == props[c].queryIndex
  }

  ghost function SomePredicates(columns: seq<Column>, offset: nat, n: nat, m: nat): set<Predicate>
    requires n <= |columns| && (n < |columns| ==> m <= |columns[n].atoms|)
  {
    set i, j | 0 <= i < |columns| && 0 <= j < |columns[i].atoms| && (i < n || (i == n && j < m)) ::
      Predicate(columns[i].id, columns[i].atoms[j].test, offset + columns[i].atoms[j].conjunct)
  }

  /** Adds one predicate to a field. */
  method AddPredicate(fields0: seq<Field>, props0: seq<Properties>, k: nat, p: Predicate)
    returns (fields: seq<Field>, props: seq<Properties>)
    requires FieldsOK(fields0) && CountsOK(props0, Members(fields0)) && Counted(props0, fields0)
    requires k < |fields0| && fields0[k].id == p.column && p.conjunct < |props0|
    ensures FieldsOK(fields) && Members(fields) == Members(fields0) + {p}
    ensures SameQueries(props0, props) && CountsOK(props, Members(fields)) && Counted(props, fields)
    ensures k < |fields| && fields[k].id == p.column
  {
    hide CountsOK, OccursIn;
    CountsAppended(props0, Members(fields0), p);
    MembersAppended(fields0, k, p);
    props := props0[p.conjunct := props0[p.conjunct].(count := props0[p.conjunct].count + 1)];
    fields := fields0[k := fields0[k].(preds := fields0[k].preds + [p])];
    forall c: nat | c < |props| ensures props[c].count == OccursIn(fields, c) {
      OccursAppended(fields0, k, p, c);
    }
  }

  /** Parses the columns of one selection. */
  method AddColumns(fields0: seq<Field>, props0: seq<Properties>, columns: seq<Column>, offset: nat)
    returns (fields: seq<Field>, props: seq<Properties>)
    requires FieldsOK(fields0) && CountsOK(props0, Members(fields0)) && Counted(props0, fields0)
    requires forall i, j | 0 <= i < |columns| && 0 <= j < |columns[i].atoms| ::
               offset + columns[i].atoms[j].conjunct < |props0|
    ensures FieldsOK(fields) && Members(fields) == Members(fields0) + Predicates(columns, offset)
    ensures SameQueries(props0, props) && CountsOK(props, Members(fields)) && Counted(props, fields)
  {
    fields, props := fields0, props0;
    for n := 0 to |columns|
      invariant FieldsOK(fields) && Members(fields) == Members(fields0) + SomePredicates(columns, offset, n, 0)
      invariant SameQueries(props0, props) && CountsOK(props, Members(fields)) && Counted(props, fields)
    {
      fields, props := AddColumn(Members(fields0), fields, props, columns, offset, n);
    }
    assert SomePredicates(columns, offset, |columns|, 0) == Predicates(columns, offset);
  }

  /** Parses the predicates of one column. */
  method AddColumn(ghost before: set<Predicate>, fields0: seq<Field>, props0: seq<Properties>, columns: seq<Column>,
                   offset: nat, n: nat)
    returns (fields: seq<Field>, props: seq<Properties>)
    requires FieldsOK(fields0) && CountsOK(props0, Members(fields0)) && Counted(props0, fields0) && n < |columns|
    requires forall j | 0 <= j < |columns[n].atoms| :: offset + columns[n].atoms[j].conjunct < |props0|
    requires Members(fields0) == before + SomePredicates(columns, offset, n, 0)
    ensures FieldsOK(fields) && Members(fields) == before + SomePredicates(columns, offset, n + 1, 0)
    ensures SameQueries(props0, props) && CountsOK(props, Members(fields)) && Counted(props, fields)
  {
    hide CountsOK, SomePredicates, OccursIn;
    var k;
    fields, k := Locate(fields0, columns[n].id);
    props := props0;
    for m := 0 to |columns[n].atoms|
      invariant FieldsOK(fields) && k < |fields| && fields[k].id == columns[n].id
      invariant Members(fields) == before + SomePredicates(columns, offset, n, m)
      invariant SameQueries(props0, props) && CountsOK(props, Members(fields)) && Counted(props, fields)
    {
      OneMore(columns, offset, n, m);
      fields, props := AddPredicate(fields, props, k, Predicate(columns[n].id, columns[n].atoms[m].test,
                                                                offset + columns[n].atoms[m].conjunct));
    }
    ColumnDone(columns, offset, n);
  }

  lemma ColumnDone(columns: seq<Column>, offset: nat, n: nat)
    requires n < |columns|
    ensures SomePredicates(columns, offset, n, |columns[n].atoms|) == SomePredicates(columns, offset, n + 1, 0)
  {
  }

  lemma OneMore(columns: seq<Column>, offset: nat, n: nat, m: nat)
    requires n < |columns| && m < |columns[n].atoms|
    ensures SomePredicates(columns, offset, n, m + 1)
            == SomePredicates(columns, offset, n, m)
               + {Predicate(columns[n].id, columns[n].atoms[m].test, offset + columns[n].atoms[m].conjunct)}
  {
  }

  // ------------------------------------------------------------------ the syntax tree of a batch

  /** Where the conjuncts of query `j` start if it does not share those of an earlier one. */
  ghost function Start(n: nat, qs: seq<Query>, owner: seq<nat>, j: nat): nat
    requires j <= |qs| == |owner|
  {
    if j == 0 then n else Start(n, qs, owner, j - 1) + if owner[j - 1] == j - 1 then qs[j - 1].numConjunct else 0
  }

  /** Query `j` uses the conjuncts of query `owner[j]`. */
  ghost predicate QueryOK(n: nat, qs: seq<Query>, owner: seq<nat>, asts: seq<QueryAst>, props: seq<Properties>,
                          ps: set<Predicate>, j: nat)
    requires |asts| == |owner| == |qs| && j < |qs|
  {
    && owner[j] <= j && owner[owner[j]] == owner[j]
    && WellFormed(qs[j]) && qs[owner[j]].columns == qs[j].columns && qs[owner[j]].numConjunct == qs[j].numConjunct
    && asts[j] == AstOf(qs[j], Start(n, qs, owner, owner[j])).(shared := asts[j].shared)
    && (owner[j] != j ==> asts[j].shared && asts[owner[j]].shared)
    && n <= asts[j].offset && asts[j].offset + qs[j].numConjunct <= |props|
    && (owner[j] == j ==>
          && Predicates(qs[j].columns, asts[j].offset) <= ps
          && forall c: nat | asts[j].offset <= c < asts[j].offset + qs[j].numConjunct :: props[c].queryIndex == j)
  }

  /** The predicate belongs to the query that its slot belongs to. */
  ghost predicate PlacedOK(n: nat, qs: seq<Query>, owner: seq<nat>, asts: seq<QueryAst>, props: seq<Properties>,
                           p: Predicate)
    requires |asts| == |owner| == |qs|
  {
    && n <= p.conjunct < |props|
    && var q := props[p.conjunct].queryIndex;
       && q < |qs| && owner[q] == q && p in Predicates(qs[q].columns, asts[q].offset)
       && asts[q].offset <= p.conjunct < asts[q].offset + qs[q].numConjunct
  }

  ghost predicate TreeOK(n: nat, qs: seq<Query>, owner: seq<nat>, asts: seq<QueryAst>, props: seq<Properties>,
                         ps: set<Predicate>)
  {
    && |asts| == |owner| == |qs| <= n && |props| == Start(n, qs, owner, |qs|)
    && CountsOK(props, ps)
    && (forall j: nat | j < |qs| :: QueryOK(n, qs, owner, asts, props, ps, j))
    && (forall p | p in ps :: PlacedOK(n, qs, owner, asts, props, p))
  }

  ghost predicate CacheOK(qs: seq<Query>, owner: seq<nat>, cache: map<seq<Column>, nat>)
    requires |owner| == |qs|
  {
    forall columns | columns in cache ::
      && cache[columns] < |qs| && owner[cache[columns]] == cache[columns] && qs[cache[columns]].columns == columns
  }

  /** The tree of a batch of queries: `owner` says whose conjuncts each query uses. */
  ghost predicate AstFor(queries: seq<Query>, owner: seq<nat>, ast: Ast) {
    FieldsOK(ast.fields) && TreeOK(|queries|, queries, owner, ast.queries, ast.props, Members(ast.fields))
  }

  lemma {:induction false} StartExtends(n: nat, qs: seq<Query>, owner: seq<nat>, q: Query, o: nat, j: nat)
    requires j <= |qs| == |owner|
    ensures Start(n, qs + [q], owner + [o], j) == Start(n, qs, owner, j) >= n
  {
    if j > 0 {
      StartExtends(n, qs, owner, q, o, j - 1);
    }
  }

  /** A query with a known selection joins the query that owns it. */
  lemma TreeShares(n: nat, qs: seq<Query>, owner: seq<nat>, asts: seq<QueryAst>, props: seq<Properties>,
                   ps: set<Predicate>, q: Query, j: nat)
    requires TreeOK(n, qs, owner, asts, props, ps) && |qs| < n && WellFormed(q)
    requires j < |qs| && owner[j] == j && qs[j].columns == q.columns
    ensures TreeOK(n, qs + [q], owner + [j],
                   asts[j := asts[j].(shared := true)] + [AstOf(q, asts[j].offset).(shared := true)], props, ps)
  {
    var qs', owner' := qs + [q], owner + [j];
    var asts' := asts[j := asts[j].(shared := true)] + [AstOf(q, asts[j].offset).(shared := true)];
    assert QueryOK(n, qs, owner, asts, props, ps, j);
    SameSelection(qs[j], q);
    StartExtends(n, qs, owner, q, j, |qs|);
    StartExtends(n, qs, owner, q, j, j);
    assert Start(n, qs', owner', |qs'|) == Start(n, qs', owner', |qs|);
    forall k: nat | k < |qs'| ensures QueryOK(n, qs', owner', asts', props, ps, k) {
      if k < |qs| {
        assert QueryOK(n, qs, owner, asts, props, ps, k);
        StartExtends(n, qs, owner, q, j, owner[k]);
      }
    }
    forall p | p in ps ensures PlacedOK(n, qs', owner', asts', props, p) {
      assert PlacedOK(n, qs, owner, asts, props, p);
    }
  }

  /** A query with a new selection, or without conjuncts, gets slots of its own. */
  lemma TreeOwns(n: nat, qs: seq<Query>, owner: seq<nat>, asts: seq<QueryAst>, props: seq<Properties>,
                 ps: set<Predicate>, q: Query, props': seq<Properties>, ps': set<Predicate>)
    requires TreeOK(n, qs, owner, asts, props, ps) && |qs| < n && WellFormed(q)
    requires ps' == ps + Predicates(q.columns, |props|) && CountsOK(props', ps')
    requires SameQueries(props + seq(q.numConjunct, k => Properties(|qs|, 0)), props')
    ensures TreeOK(n, qs + [q], owner + [|qs|], asts + [AstOf(q, |props|)], props', ps')
  {
    var i := |qs|;
    var qs', owner', asts' := qs + [q], owner + [i], asts + [AstOf(q, |props|)];
    StartExtends(n, qs, owner, q, i, i);
    forall k: nat | k < |qs'| ensures QueryOK(n, qs', owner', asts', props', ps', k) {
      if k < i {
        OwnsKeeps(n, qs, owner, asts, props, ps, q, props', ps', k);
      }
    }
    forall p | p in ps' ensures PlacedOK(n, qs', owner', asts', props', p) {
      if p in ps {
        assert PlacedOK(n, qs, owner, asts, props, p);
      } else {
        UnshiftPredicate(q.columns, |props|, p);
      }
    }
  }

  lemma OwnsKeeps(n: nat, qs: seq<Query>, owner: seq<nat>, asts: seq<QueryAst>, props: seq<Properties>,
                  ps: set<Predicate>, q: Query, props': seq<Properties>, ps': set<Predicate>, k: nat)
    requires |asts| == |owner| == |qs| && k < |qs| && QueryOK(n, qs, owner, asts, props, ps, k) && ps <= ps'
    requires SameQueries(props + seq(q.numConjunct, k => Properties(|qs|, 0)), props')
    ensures QueryOK(n, qs + [q], owner + [|qs|], asts + [AstOf(q, |props|)], props', ps', k)
  {
    StartExtends(n, qs, owner, q, |qs|, owner[k]);
  }

  /** Queries with the same selection use the same conjuncts. */
  ghost predicate AllShared(qs: seq<Query>, owner: seq<nat>) {
    |owner| == |qs|
    && forall j, k | 0 <= j < |qs| && 0 <= k < |qs| && qs[j].columns == qs[k].columns && qs[j].numConjunct != 0 ::
         owner[j] == owner[k]
  }

  ghost predicate AllCached(qs: seq<Query>, owner: seq<nat>, cache: map<seq<Column>, nat>)
    requires |owner| == |qs|
  {
    forall j | 0 <= j < |qs| && qs[j].numConjunct != 0 :: qs[j].columns in cache && cache[qs[j].columns] == owner[j]
  }

  lemma CachedIsShared(qs: seq<Query>, owner: seq<nat>, cache: map<seq<Column>, nat>)
    requires |owner| == |qs| && AllCached(qs, owner, cache) && forall q | q in qs :: WellFormed(q)
    ensures AllShared(qs, owner)
  {
    forall j, k | 0 <= j < |qs| && 0 <= k < |qs| && qs[j].columns == qs[k].columns && qs[j].numConjunct != 0
      ensures owner[j] == owner[k]
    {
      SameSelection(qs[j], qs[k]);
    }
  }

  lemma CachedJoins(qs: seq<Query>, owner: seq<nat>, cache: map<seq<Column>, nat>, q: Query)
    requires |owner| == |qs| && AllCached(qs, owner, cache) && q.columns in cache
    ensures AllCached(qs + [q], owner + [cache[q.columns]], cache)
  {
  }

  lemma CachedNew(qs: seq<Query>, owner: seq<nat>, cache: map<seq<Column>, nat>, q: Query)
    requires |owner| == |qs| && AllCached(qs, owner, cache) && (q.numConjunct == 0 || q.columns !in cache)
    ensures AllCached(qs + [q], owner + [|qs|], if q.numConjunct != 0 then cache[q.columns := |qs|] else cache)
  {
  }

  /** A query is marked as shared exactly if another one uses the same conjuncts. */
  ghost predicate FlagsOK(owner: seq<nat>, asts: seq<QueryAst>) {
    |asts| == |owner|
    && forall j | 0 <= j < |asts| :: asts[j].shared <==> exists k | 0 <= k < |owner| :: k != j && owner[k] == owner[j]
  }

  lemma FlagsShared(owner: seq<nat>, asts: seq<QueryAst>, j: nat, q: QueryAst)
    requires FlagsOK(owner, asts) && j < |asts| && owner[j] == j && q.shared
    requires forall k | 0 <= k < |owner| && owner[k] == j && k != j :: asts[k].shared
    ensures FlagsOK(owner + [j], asts[j := asts[j].(shared := true)] + [q])
  {
    var owner', asts' := owner + [j], asts[j := asts[j].(shared := true)] + [q];
    forall i | 0 <= i < |asts'| ensures asts'[i].shared <==> exists k | 0 <= k < |owner'| :: k != i && owner'[k] == owner'[i] {
      if i == j {
        assert owner'[|owner|] == owner'[i];
      } else if i == |owner| {
        assert owner'[j] == owner'[i];
      } else if asts[i].shared {
        var k :| 0 <= k < |owner| && k != i && owner[k] == owner[i];
        assert owner'[k] == owner'[i];
      }
    }
  }

  lemma FlagsOwned(owner: seq<nat>, asts: seq<QueryAst>, q: QueryAst)
    requires FlagsOK(owner, asts) && !q.shared && forall k | 0 <= k < |owner| :: owner[k] < |owner|
    ensures FlagsOK(owner + [|owner|], asts + [q])
  {
    var owner' := owner + [|owner|];
    forall i | 0 <= i < |asts| ensures asts[i].shared <==> exists k | 0 <= k < |owner'| :: k != i && owner'[k] == owner'[i] {
      if asts[i].shared {
        var k :| 0 <= k < |owner| && k != i && owner[k] == owner[i];
        assert owner'[k] == owner'[i];
      }
    }
  }

  lemma OwnersBelow(n: nat, qs: seq<Query>, owner: seq<nat>, asts: seq<QueryAst>, props: seq<Properties>, ps: set<Predicate>)
    requires TreeOK(n, qs, owner, asts, props, ps)
    ensures forall k | 0 <= k < |owner| :: owner[k] < |owner| && (owner[k] != k ==> asts[k].shared)
  {
    forall k | 0 <= k < |owner| ensures owner[k] < |owner| && (owner[k] != k ==> asts[k].shared) {
      assert QueryOK(n, qs, owner, asts, props, ps, k);
    }
  }

  lemma NothingParsed(n: nat)
    ensures FlagsOK([], []) && AllCached([], [], map[]) && Counted(seq(n, _ => Properties(0, 0)), [])
  {
  }

  /** The constructor of LLVMScanBase. */
  method BuildAst(queries: seq<Query>) returns (ast: Ast, ghost owner: seq<nat>)
    requires forall q | q in queries :: WellFormed(q)
    ensures AstFor(queries, owner, ast) && Counted(ast.props, ast.fields)
    ensures AllShared(queries, owner) && FlagsOK(owner, ast.queries)
  {
    hide FlagsOK, AllCached, AllShared, Counted;
    NothingParsed(|queries|);
    var n := |queries|;
    var asts: seq<QueryAst>, fields: seq<Field> := [], [];
    var props := seq(n, _ => Properties(0, 0));
    var cache: map<seq<Column>, nat> := map[];
    owner := [];
    for i := 0 to n
      invariant TreeOK(n, queries[..i], owner, asts, props, Members(fields)) && FieldsOK(fields)
      invariant CacheOK(queries[..i], owner, cache) && Counted(props, fields)
      invariant AllCached(queries[..i], owner, cache) && FlagsOK(owner, asts)
    {
      var q := queries[i];
      assert queries[..i + 1] == queries[..i] + [q];
      if q.numConjunct != 0 && q.columns in cache {
        var j := cache[q.columns];
        TreeShares(n, queries[..i], owner, asts, props, Members(fields), q, j);
        OwnersBelow(n, queries[..i], owner, asts, props, Members(fields));
        FlagsShared(owner, asts, j, AstOf(q, asts[j].offset).(shared := true));
        CachedJoins(queries[..i], owner, cache, q);
        asts := asts[j := asts[j].(shared := true)];
        asts := asts + [AstOf(q, asts[j].offset).(shared := true)];
        owner := owner + [j];
      } else {
        CachedNew(queries[..i], owner, cache, q);
        if q.numConjunct != 0 {
          cache := cache[q.columns := i];
        }
        var offset := |props|;
        var fields', props' := AddNew(fields, props, q, i);
        TreeOwns(n, queries[..i], owner, asts, props, Members(fields), q, props', Members(fields'));
        OwnersBelow(n, queries[..i], owner, asts, props, Members(fields));
        FlagsOwned(owner, asts, AstOf(q, offset));
        asts := asts + [AstOf(q, offset)];
        fields, props := fields', props';
        owner := owner + [i];
      }
    }
    assert queries[..n] == queries;
    CachedIsShared(queries, owner, cache);
    ast := Ast(asts, props, fields);
  }

  lemma MembersBelow(fields: seq<Field>, props: seq<Properties>, c: nat)
    requires CountsOK(props, Members(fields)) && |props| <= c
    ensures forall i, j | 0 <= i < |fields| && 0 <= j < |fields[i].preds| :: fields[i].preds[j].conjunct != c
  {
    forall i, j | 0 <= i < |fields| && 0 <= j < |fields[i].preds| ensures fields[i].preds[j].conjunct != c {
      assert fields[i].preds[j] in Members(fields);
    }
  }

  /** Makes room for the conjuncts of a query and parses its columns. */
  method AddNew(fields0: seq<Field>, props0: seq<Properties>, q: Query, i: nat)
    returns (fields: seq<Field>, props: seq<Properties>)
    requires FieldsOK(fields0) && CountsOK(props0, Members(fields0)) && Counted(props0, fields0) && WellFormed(q)
    ensures FieldsOK(fields) && Members(fields) == Members(fields0) + Predicates(q.columns, |props0|)
    ensures SameQueries(props0 + seq(q.numConjunct, k => Properties(i, 0)), props) && CountsOK(props, Members(fields))
    ensures Counted(props, fields)
  {
    props := props0 + seq(q.numConjunct, k => Properties(i, 0));
    forall c: nat | |props0| <= c < |props| ensures OccursIn(fields0, c) == 0 {
      MembersBelow(fields0, props0, c);
      NoneOccurs(fields0, c);
    }
    forall n, m | 0 <= n < |q.columns| && 0 <= m < |q.columns[n].atoms|
      ensures |props0| + q.columns[n].atoms[m].conjunct < |props|
    {
      var p := Predicate(q.columns[n].id, q.columns[n].atoms[m].test, 0 + q.columns[n].atoms[m].conjunct);
      assert p in Predicates(q.columns, 0);
    }
    fields, props := AddColumns(fields0, props, q.columns, |props0|);
  }

  // ------------------------------------------------------------------ programs

  datatype Expr =
    | Load(slot: nat)
    | Test(column: nat, test: nat)
    | Window(baseVersion: nat, version: nat)
    | Partition(shift: nat, modulo: nat, number: nat)
    | And(left: Expr, right: Expr)
    | Or(left: Expr, right: Expr)

  /** Stores the value of an expression into a slot of the result array. */
  datatype Instr = Store(slot: nat, value: Expr)

  function Eval(e: Expr, row: Row, mem: seq<bool>): bool {
    match e
    case Load(slot) => slot < |mem| && mem[slot]
    case Test(column, test) => row.holds(column, test)
    case Window(baseVersion, version) => InWindow(row, baseVersion, version)
    case Partition(shift, modulo, number) => InPartition(row, shift, modulo, number)
    case And(left, right) => Eval(left, row, mem) && Eval(right, row, mem)
    case Or(left, right) => Eval(left, row, mem) || Eval(right, row, mem)
  }

  function Execute(ins: Instr, row: Row, mem: seq<bool>): seq<bool> {
    if ins.slot < |mem| then mem[ins.slot := Eval(ins.value, row, mem)] else mem
  }

  function Run(code: seq<Instr>, row: Row, mem: seq<bool>): (r: seq<bool>)
    ensures |r| == |mem|
  {
    if code == [] then mem else Execute(code[|code| - 1], row, Run(code[..|code| - 1], row, mem))
  }

  lemma RunAppend(code: seq<Instr>, ins: Instr, row: Row, mem: seq<bool>)
    ensures Run(code + [ins], row, mem) == Execute(ins, row, Run(code, row, mem))
  {
    assert (code + [ins])[..|code|] == code;
  }

  // ------------------------------------------------------------------ conjuncts

  /** The slot `c` belongs to a query. */
  predicate Placed(ast: Ast, c: nat) {
    && c < |ast.props| && ast.props[c].queryIndex < |ast.queries| && ast.props[c].queryIndex < |ast.props|
    && ast.queries[ast.props[c].queryIndex].offset <= c
  }

  /** The first slot from `from` on that does not collect alternatives, at most `c`. */
  function FirstSingle(props: seq<Properties>, from: nat, c: nat): nat
    requires from <= c < |props|
    decreases c - from
  {
    if from == c || props[from].count < 2 then from else FirstSingle(props, from + 1, c)
  }

  /** The slot that receives a predicate: its conjunct if there are alternatives, otherwise the result slot of the
      query, or for a shared query the first slot that does not collect alternatives. */
  function Target(ast: Ast, c: nat): nat
    requires Placed(ast, c)
  {
    if ast.props[c].count != 1 then c
    else
      var q := ast.props[c].queryIndex;
      if !ast.queries[q].shared then q else FirstSingle(ast.props, ast.queries[q].offset, c)
  }

  /** One predicate of a field: the store and the flags that say which slots have been written. */
  method BuildPredicate(ast: Ast, p: Predicate, generated: seq<bool>) returns (ins: Instr, out: seq<bool>)
    requires Placed(ast, p.conjunct) && |generated| == |ast.props|
    ensures var t := Target(ast, p.conjunct);
            && t < |ast.props| && out == generated[t := true]
            && ins == Store(t, Combined(ast, p, t, generated[t]))
  {
    var value := Test(p.column, p.test);
    var c := p.conjunct;
    if ast.props[c].count == 1 {
      var q := ast.props[c].queryIndex;
      var t;
      if !ast.queries[q].shared {
        t := q;
      } else {
        t := ast.queries[q].offset;
        while t < c && ast.props[t].count >= 2
          invariant t <= c && FirstSingle(ast.props, ast.queries[q].offset, c) == FirstSingle(ast.props, t, c)
        {
          t := t + 1;
        }
      }
      out := generated[t := true];
      ins := Store(t, if generated[t] then And(Load(t), value) else value);
    } else {
      out := generated[c := true];
      ins := Store(c, if generated[c] then Or(Load(c), value) else value);
    }
  }

  function Combined(ast: Ast, p: Predicate, t: nat, generated: bool): Expr
    requires p.conjunct < |ast.props|
  {
    var value := Test(p.column, p.test);
    if !generated then value else if ast.props[p.conjunct].count == 1 then And(Load(t), value) else Or(Load(t), value)
  }

  /** The code for a list of predicates, and the flags after it. */
  ghost function Emitted(ast: Ast, ps: seq<Predicate>): (r: (seq<Instr>, seq<bool>))
    requires forall p | p in ps :: Placed(ast, p.conjunct)
    ensures |r.1| == |ast.props|
  {
    if ps == [] then ([], seq(|ast.props|, _ => false))
    else
      var (code, generated) := Emitted(ast, ps[..|ps| - 1]);
      var p := ps[|ps| - 1];
      var t := Target(ast, p.conjunct);
      if t < |ast.props| then (code + [Store(t, Combined(ast, p, t, generated[t]))], generated[t := true])
      else (code, generated)
  }

  /** The code for further predicates when `flags` says which slots have been written, and the flags after it. */
  ghost function Code(ast: Ast, ps: seq<Predicate>, flags: seq<bool>): (r: (seq<Instr>, seq<bool>))
    ensures |r.1| == |flags|
  {
    if ps == [] then ([], flags)
    else
      var (code, generated) := Code(ast, ps[..|ps| - 1], flags);
      var p := ps[|ps| - 1];
      var t := if Placed(ast, p.conjunct) then Target(ast, p.conjunct) else |flags|;
      if t < |flags| then (code + [Store(t, Combined(ast, p, t, generated[t]))], generated[t := true])
      else (code, generated)
  }

  ghost predicate Known(ast: Ast, ps: seq<Predicate>) {
    forall p | p in ps :: Placed(ast, p.conjunct)
  }

  lemma {:induction false} EmittedConcat(ast: Ast, before: seq<Predicate>, ps: seq<Predicate>)
    requires Known(ast, before + ps)
    ensures Known(ast, before)
    ensures var (code, generated) := Code(ast, ps, Emitted(ast, before).1);
            Emitted(ast, before + ps) == (Emitted(ast, before).0 + code, generated)
  {
    assert forall p | p in before :: p in before + ps;
    if ps == [] {
      assert before + ps == before && Emitted(ast, before).0 + [] == Emitted(ast, before).0;
    } else {
      var front, p := ps[..|ps| - 1], ps[|ps| - 1];
      assert (before + ps)[..|before + ps| - 1] == before + front && p in before + ps;
      assert forall q | q in before + front :: q in before + ps;
      EmittedConcat(ast, before, front);
      var code0 := Emitted(ast, before).0;
      var (code, generated) := Code(ast, front, Emitted(ast, before).1);
      var t := Target(ast, p.conjunct);
      if t < |ast.props| {
        var ins := Store(t, Combined(ast, p, t, generated[t]));
        assert (code0 + code) + [ins] == code0 + (code + [ins]);
      }
    }
  }

  /** Some predicate, or every predicate, that goes to slot `t` holds. */
  ghost predicate Any(ast: Ast, ps: seq<Predicate>, t: nat, row: Row)
    requires forall p | p in ps :: Placed(ast, p.conjunct)
  {
    exists p | p in ps :: Target(ast, p.conjunct) == t && Holds(p, row)
  }

  ghost predicate All(ast: Ast, ps: seq<Predicate>, t: nat, row: Row)
    requires forall p | p in ps :: Placed(ast, p.conjunct)
  {
    forall p | p in ps :: Target(ast, p.conjunct) == t ==> Holds(p, row)
  }

  ghost predicate Targeted(ast: Ast, ps: seq<Predicate>, t: nat)
    requires forall p | p in ps :: Placed(ast, p.conjunct)
  {
    exists p | p in ps :: Target(ast, p.conjunct) == t
  }

  /** After the code of `ps`: a slot has been written if a predicate goes there, and holds their disjunction if it
      collects alternatives, their conjunction otherwise. */
  ghost predicate SlotOK(ast: Ast, ps: seq<Predicate>, generated: seq<bool>, mem: seq<bool>, row: Row, t: nat)
    requires |generated| == |mem| == |ast.props| && t < |mem| && forall p | p in ps :: Placed(ast, p.conjunct)
  {
    && (generated[t] <==> Targeted(ast, ps, t))
    && (generated[t] ==> (mem[t] <==> if ast.props[t].count >= 2 then Any(ast, ps, t, row) else All(ast, ps, t, row)))
  }

  /** Slots of queries collect no alternatives, slots with predicates are counted. */
  ghost predicate Countable(ast: Ast, ps: seq<Predicate>) {
    && (forall p | p in ps :: Placed(ast, p.conjunct) && ast.props[p.conjunct].count > 0)
    && (forall q | 0 <= q < |ast.queries| :: q < |ast.props| && ast.props[q].count == 0)
  }

  lemma {:induction false} FirstSingleCount(props: seq<Properties>, from: nat, c: nat)
    requires from <= c < |props|
    ensures var t := FirstSingle(props, from, c); from <= t <= c && (props[c].count < 2 ==> props[t].count < 2)
    decreases c - from
  {
    if from < c && props[from].count >= 2 {
      FirstSingleCount(props, from + 1, c);
    }
  }

  lemma TargetCount(ast: Ast, ps: seq<Predicate>, p: Predicate)
    requires Countable(ast, ps) && p in ps
    ensures var t := Target(ast, p.conjunct);
            t < |ast.props| && (ast.props[t].count >= 2 <==> ast.props[p.conjunct].count >= 2)
  {
    var q := ast.props[p.conjunct].queryIndex;
    FirstSingleCount(ast.props, ast.queries[q].offset, p.conjunct);
  }

  lemma EmittedAppend(ast: Ast, ps: seq<Predicate>, p: Predicate)
    requires forall x | x in ps + [p] :: Placed(ast, x.conjunct)
    requires Target(ast, p.conjunct) < |ast.props|
    ensures forall x | x in ps :: Placed(ast, x.conjunct)
    ensures var (code, generated) := Emitted(ast, ps);
            var t := Target(ast, p.conjunct);
            Emitted(ast, ps + [p]) == (code + [Store(t, Combined(ast, p, t, generated[t]))], generated[t := true])
  {
    assert (ps + [p])[..|ps|] == ps;
    assert forall x | x in ps :: x in ps + [p];
  }

  lemma {:induction false} EmittedCorrect(ast: Ast, ps: seq<Predicate>, row: Row, mem: seq<bool>, t: nat)
    requires Countable(ast, ps) && |mem| == |ast.props| && t < |mem|
    ensures SlotOK(ast, ps, Emitted(ast, ps).1, Run(Emitted(ast, ps).0, row, mem), row, t)
  {
    if ps != [] {
      var before, p := ps[..|ps| - 1], ps[|ps| - 1];
      assert ps == before + [p] && p in ps && forall x | x in before :: x in ps;
      EmittedCorrect(ast, before, row, mem, t);
      TargetCount(ast, ps, p);
      EmittedAppend(ast, before, p);
      var (code, generated) := Emitted(ast, before);
      var u := Target(ast, p.conjunct);
      RunAppend(code, Store(u, Combined(ast, p, u, generated[u])), row, mem);
      SlotStep(ast, before, p, generated, Run(code, row, mem), row, t);
    }
  }

  lemma SlotStep(ast: Ast, before: seq<Predicate>, p: Predicate, generated: seq<bool>, mem: seq<bool>, row: Row, t: nat)
    requires Countable(ast, before + [p]) && |generated| == |mem| == |ast.props| && t < |mem|
    requires forall x | x in before :: Placed(ast, x.conjunct)
    requires SlotOK(ast, before, generated, mem, row, t)
    requires p in before + [p]
    ensures var u := Target(ast, p.conjunct);
            && u < |ast.props|
            && SlotOK(ast, before + [p], generated[u := true],
                      Execute(Store(u, Combined(ast, p, u, generated[u])), row, mem), row, t)
  {
    TargetCount(ast, before + [p], p);
    assert Eval(Load(t), row, mem) == mem[t] && Eval(Test(p.column, p.test), row, mem) == Holds(p, row);
    if Target(ast, p.conjunct) == t {
      SlotGrows(ast, before, p, row, t);
    } else {
      SlotStays(ast, before, p, row, t);
    }
  }

  lemma SlotGrows(ast: Ast, before: seq<Predicate>, p: Predicate, row: Row, t: nat)
    requires forall x | x in before + [p] :: Placed(ast, x.conjunct)
    requires Target(ast, p.conjunct) == t
    ensures Targeted(ast, before + [p], t)
    ensures Any(ast, before + [p], t, row) == (Any(ast, before, t, row) || Holds(p, row))
    ensures All(ast, before + [p], t, row) == (All(ast, before, t, row) && Holds(p, row))
    ensures !Targeted(ast, before, t) ==> !Any(ast, before, t, row) && All(ast, before, t, row)
  {
    assert p in before + [p];
    if Any(ast, before, t, row) {
      var x :| x in before && Target(ast, x.conjunct) == t && Holds(x, row);
      assert x in before + [p];
    }
    assert forall x | x in before :: x in before + [p];
  }

  lemma SlotStays(ast: Ast, before: seq<Predicate>, p: Predicate, row: Row, t: nat)
    requires forall x | x in before + [p] :: Placed(ast, x.conjunct)
    requires Target(ast, p.conjunct) != t
    ensures Targeted(ast, before + [p], t) == Targeted(ast, before, t)
    ensures Any(ast, before + [p], t, row) == Any(ast, before, t, row)
    ensures All(ast, before + [p], t, row) == All(ast, before, t, row)
  {
    assert forall x | x in before :: x in before + [p];
  }

  // ------------------------------------------------------------------ what the slots mean

  /** The predicates in the order of the fields. */
  function Flat(fields: seq<Field>): seq<Predicate> {
    if fields == [] then [] else Flat(fields[..|fields| - 1]) + fields[|fields| - 1].preds
  }

  lemma {:induction false} FlatMembers(fields: seq<Field>)
    ensures forall p :: p in Flat(fields) <==> p in Members(fields)
  {
    if fields != [] {
      var before, f := fields[..|fields| - 1], fields[|fields| - 1];
      FlatMembers(before);
      forall p | p in Members(fields) ensures p in Flat(fields) {
        var i, j :| 0 <= i < |fields| && 0 <= j < |fields[i].preds| && fields[i].preds[j] == p;
        if i < |before| {
          assert before[i].preds[j] == p && p in Members(before);
        }
      }
      forall p | p in Flat(fields) ensures p in Members(fields) {
        if p in Members(before) {
          var i, j :| 0 <= i < |before| && 0 <= j < |before[i].preds| && before[i].preds[j] == p;
          assert fields[i].preds[j] == p;
        } else {
          var j :| 0 <= j < |f.preds| && f.preds[j] == p;
          assert fields[|fields| - 1].preds[j] == p;
        }
      }
    }
  }

  lemma TreeCountable(queries: seq<Query>, owner: seq<nat>, ast: Ast)
    requires AstFor(queries, owner, ast)
    ensures Countable(ast, Flat(ast.fields)) && |ast.queries| == |queries| <= |ast.props|
  {
    FlatMembers(ast.fields);
    var n, ps := |queries|, Members(ast.fields);
    forall p | p in ps ensures Placed(ast, p.conjunct) && ast.props[p.conjunct].count > 0 {
      assert PlacedOK(n, queries, owner, ast.queries, ast.props, p);
    }
    StartAtLeast(n, queries, owner, n);
    assert forall p | p in ps :: n <= p.conjunct by {
      forall p | p in ps ensures n <= p.conjunct {
        assert PlacedOK(n, queries, owner, ast.queries, ast.props, p);
      }
    }
    assert forall q: nat | q < n :: !Used(ps, q);
  }

  lemma {:induction false} StartAtLeast(n: nat, qs: seq<Query>, owner: seq<nat>, j: nat)
    requires j <= |qs| == |owner|
    ensures Start(n, qs, owner, j) >= n
  {
    if j > 0 {
      StartAtLeast(n, qs, owner, j - 1);
    }
  }

  /** The group of slots that query `i` uses, and whose it is. */
  ghost predicate Group(ps: set<Predicate>, queries: seq<Query>, owner: seq<nat>, ast: Ast, i: nat)
    requires i < |queries| == |owner| == |ast.queries|
  {
    var off, o, num := ast.queries[i].offset, owner[i], queries[i].numConjunct;
    && o < |queries| && ast.queries[o].offset == off && (o != i ==> ast.queries[o].shared)
    && (o != i ==> ast.queries[i].shared) && ast.queries[i].numConjunct == num
    && |queries| <= off && off + num <= |ast.props|
    && (forall c: nat | off <= c < off + num :: ast.props[c].queryIndex == o)
    && Predicates(queries[i].columns, off) <= ps
    && (forall p | p in ps && off <= p.conjunct < off + num :: p in Predicates(queries[i].columns, off))
  }

  lemma QueryGroup(queries: seq<Query>, owner: seq<nat>, ast: Ast, i: nat)
    requires AstFor(queries, owner, ast) && i < |queries|
    ensures Group(Members(ast.fields), queries, owner, ast, i)
  {
    var n, ps, o, off := |queries|, Members(ast.fields), owner[i], ast.queries[i].offset;
    assert QueryOK(n, queries, owner, ast.queries, ast.props, ps, i);
    assert QueryOK(n, queries, owner, ast.queries, ast.props, ps, o);
    forall p | p in ps && off <= p.conjunct < off + queries[i].numConjunct
      ensures p in Predicates(queries[i].columns, off)
    {
      assert PlacedOK(n, queries, owner, ast.queries, ast.props, p);
    }
  }

  lemma SatisfiedShifted(columns: seq<Column>, ps: set<Predicate>, off: nat, k: nat, row: Row)
    requires Predicates(columns, off) <= ps
    requires forall p | p in ps && p.conjunct == off + k :: p in Predicates(columns, off)
    ensures Satisfied(Predicates(columns, 0), k, row) <==> Satisfied(ps, off + k, row)
    ensures Used(Predicates(columns, 0), k) ==> Used(ps, off + k)
  {
    var own := Predicates(columns, 0);
    if Used(own, k) {
      var p :| p in own && p.conjunct == k;
      ShiftPredicate(columns, off, p);
      assert p.(conjunct := off + k) in ps;
    }
    if Satisfied(own, k, row) {
      var p :| p in own && p.conjunct == k && Holds(p, row);
      ShiftPredicate(columns, off, p);
      assert p.(conjunct := off + k) in ps && Holds(p.(conjunct := off + k), row);
    }
    if Satisfied(ps, off + k, row) {
      var p :| p in ps && p.conjunct == off + k && Holds(p, row);
      UnshiftPredicate(columns, off, p);
      assert Holds(p.(conjunct := p.conjunct - off), row);
    }
  }

  /** Conjunct `k` of query `i` is the slot at its offset plus `k`. */
  lemma ConjunctSlot(queries: seq<Query>, owner: seq<nat>, ast: Ast, i: nat, k: nat, row: Row)
    requires AstFor(queries, owner, ast) && i < |queries| && k < queries[i].numConjunct
    ensures var c, ps := ast.queries[i].offset + k, Members(ast.fields);
            && Used(ps, c) && (Satisfied(Predicates(queries[i].columns, 0), k, row) <==> Satisfied(ps, c, row))
  {
    QueryGroup(queries, owner, ast, i);
    assert QueryOK(|queries|, queries, owner, ast.queries, ast.props, Members(ast.fields), i);
    assert Used(Predicates(queries[i].columns, 0), k);
    SatisfiedShifted(queries[i].columns, Members(ast.fields), ast.queries[i].offset, k, row);
  }

  /** All slots are as the code for the predicates leaves them. */
  ghost predicate SlotsOK(ast: Ast, generated: seq<bool>, mem: seq<bool>, row: Row)
    requires Countable(ast, Flat(ast.fields))
  {
    && |generated| == |mem| == |ast.props|
    && forall t: nat | t < |mem| :: SlotOK(ast, Flat(ast.fields), generated, mem, row, t)
  }

  /** Every slot of query `i` that was written is true. */
  predicate Merged(ast: Ast, generated: seq<bool>, mem: seq<bool>, i: nat)
    requires |generated| == |mem| == |ast.props| && i < |ast.queries| <= |mem|
    requires ast.queries[i].offset + ast.queries[i].numConjunct <= |mem|
  {
    var q := ast.queries[i];
    && (forall s: nat | q.offset <= s < q.offset + q.numConjunct :: generated[s] ==> mem[s])
    && (generated[i] ==> mem[i])
  }

  /** If the slots of a query are true then so is each of its conjuncts. */
  lemma MergedMeansConjunct(queries: seq<Query>, owner: seq<nat>, ast: Ast, generated: seq<bool>, mem: seq<bool>,
                            row: Row, i: nat, c: nat)
    requires |queries| == |owner| == |ast.queries| && i < |queries|
    requires Countable(ast, Flat(ast.fields)) && SlotsOK(ast, generated, mem, row)
    requires |ast.queries| <= |mem| && Group(Members(ast.fields), queries, owner, ast, i)
    requires ast.queries[i].offset <= c < ast.queries[i].offset + queries[i].numConjunct && Used(Members(ast.fields), c)
    requires Merged(ast, generated, mem, i)
    ensures Satisfied(Members(ast.fields), c, row)
  {
    var ps, flat := Members(ast.fields), Flat(ast.fields);
    FlatMembers(ast.fields);
    var p :| p in ps && p.conjunct == c;
    TargetInGroup(queries, owner, ast, i, p);
    var t := Target(ast, c);
    assert SlotOK(ast, flat, generated, mem, row, t) && Targeted(ast, flat, t);
    assert mem[t];
    if ast.props[c].count >= 2 {
      var x :| x in flat && Target(ast, x.conjunct) == t && Holds(x, row);
      TargetCount(ast, flat, x);
      assert x in ps && x.conjunct == c;
    }
  }

  /** A predicate of a conjunct of query `i` goes to the result slot of `i` or to a slot of its conjuncts. */
  lemma TargetInGroup(queries: seq<Query>, owner: seq<nat>, ast: Ast, i: nat, p: Predicate)
    requires |queries| == |owner| == |ast.queries| && i < |queries|
    requires Countable(ast, Flat(ast.fields)) && Group(Members(ast.fields), queries, owner, ast, i)
    requires p in Members(ast.fields) && p in Flat(ast.fields)
    requires ast.queries[i].offset <= p.conjunct < ast.queries[i].offset + queries[i].numConjunct
    ensures var t := Target(ast, p.conjunct); t < |ast.props| && (t == i || ast.queries[i].offset <= t <= p.conjunct)
    ensures var t := Target(ast, p.conjunct); ast.props[t].count >= 2 <==> ast.props[p.conjunct].count >= 2
  {
    TargetCount(ast, Flat(ast.fields), p);
    FirstSingleCount(ast.props, ast.queries[i].offset, p.conjunct);
  }

  /** If all conjuncts of a query hold then slot `s` of the query, if written, is true. */
  lemma ConjunctsMeanMerged(queries: seq<Query>, owner: seq<nat>, ast: Ast, generated: seq<bool>, mem: seq<bool>,
                            row: Row, i: nat, s: nat)
    requires AstFor(queries, owner, ast) && i < |queries|
    requires Countable(ast, Flat(ast.fields)) && SlotsOK(ast, generated, mem, row) && |ast.queries| <= |mem|
    requires s == i || ast.queries[i].offset <= s < ast.queries[i].offset + queries[i].numConjunct
    requires forall k: nat | k < queries[i].numConjunct :: Satisfied(Predicates(queries[i].columns, 0), k, row)
    requires s < |mem| && generated[s]
    ensures mem[s]
  {
    var ps, flat, off := Members(ast.fields), Flat(ast.fields), ast.queries[i].offset;
    FlatMembers(ast.fields);
    QueryGroup(queries, owner, ast, i);
    assert SlotOK(ast, flat, generated, mem, row, s);
    if ast.props[s].count >= 2 {
      var k: nat := s - off;
      ConjunctSlot(queries, owner, ast, i, k, row);
      var x :| x in ps && x.conjunct == s && Holds(x, row);
      assert x in flat;
    } else {
      forall p | p in flat && Target(ast, p.conjunct) == s ensures Holds(p, row) {
        SingleHolds(queries, owner, ast, row, i, s, p);
      }
    }
  }

  lemma SingleHolds(queries: seq<Query>, owner: seq<nat>, ast: Ast, row: Row, i: nat, s: nat, p: Predicate)
    requires AstFor(queries, owner, ast) && i < |queries| && Countable(ast, Flat(ast.fields))
    requires p in Flat(ast.fields) && Target(ast, p.conjunct) == s < |ast.props| && ast.props[s].count < 2
    requires s == i || ast.queries[i].offset <= s < ast.queries[i].offset + queries[i].numConjunct
    requires forall k: nat | k < queries[i].numConjunct :: Satisfied(Predicates(queries[i].columns, 0), k, row)
    ensures Holds(p, row)
  {
    var ps := Members(ast.fields);
    FlatMembers(ast.fields);
    TargetCount(ast, Flat(ast.fields), p);
    SingleBelongs(queries, owner, ast, i, s, p);
    var k: nat := p.conjunct - ast.queries[i].offset;
    ConjunctSlot(queries, owner, ast, i, k, row);
    var x :| x in ps && x.conjunct == p.conjunct && Holds(x, row);
    assert x == p;
  }

  /** A single predicate that goes to a slot of query `i` belongs to the conjuncts that query uses. */
  lemma SingleBelongs(queries: seq<Query>, owner: seq<nat>, ast: Ast, i: nat, s: nat, p: Predicate)
    requires AstFor(queries, owner, ast) && i < |queries| && p in Members(ast.fields) && Placed(ast, p.conjunct)
    requires ast.props[p.conjunct].count == 1 && Target(ast, p.conjunct) == s
    requires s == i || ast.queries[i].offset <= s < ast.queries[i].offset + queries[i].numConjunct
    ensures ast.queries[i].offset <= p.conjunct < ast.queries[i].offset + queries[i].numConjunct
  {
    var n, ps := |queries|, Members(ast.fields);
    var q := ast.props[p.conjunct].queryIndex;
    assert PlacedOK(n, queries, owner, ast.queries, ast.props, p);
    assert QueryOK(n, queries, owner, ast.queries, ast.props, ps, i);
    assert QueryOK(n, queries, owner, ast.queries, ast.props, ps, owner[i]);
    assert QueryOK(n, queries, owner, ast.queries, ast.props, ps, q);
    FirstSingleCount(ast.props, ast.queries[q].offset, p.conjunct);
  }

  /** The slots of a query together are its conjunctive normal form, shared or not. */
  lemma MergedIsCnf(queries: seq<Query>, owner: seq<nat>, ast: Ast, generated: seq<bool>, mem: seq<bool>, row: Row,
                    i: nat)
    requires AstFor(queries, owner, ast) && i < |queries|
    requires Countable(ast, Flat(ast.fields)) && SlotsOK(ast, generated, mem, row) && |ast.queries| <= |mem|
    ensures ast.queries[i].numConjunct == queries[i].numConjunct
    ensures ast.queries[i].offset + ast.queries[i].numConjunct <= |mem|
    ensures Merged(ast, generated, mem, i)
            <==> forall k: nat | k < queries[i].numConjunct :: Satisfied(Predicates(queries[i].columns, 0), k, row)
  {
    QueryGroup(queries, owner, ast, i);
    if Merged(ast, generated, mem, i) {
      forall k: nat | k < queries[i].numConjunct ensures Satisfied(Predicates(queries[i].columns, 0), k, row) {
        ConjunctSlot(queries, owner, ast, i, k, row);
        MergedMeansConjunct(queries, owner, ast, generated, mem, row, i, ast.queries[i].offset + k);
      }
    } else if forall k: nat | k < queries[i].numConjunct :: Satisfied(Predicates(queries[i].columns, 0), k, row) {
      var s: nat :| s < |mem| && generated[s] && !mem[s]
                    && (s == i || ast.queries[i].offset <= s < ast.queries[i].offset + queries[i].numConjunct);
      ConjunctsMeanMerged(queries, owner, ast, generated, mem, row, i, s);
    }
  }

  // ------------------------------------------------------------------ the row program

  /** The version filter and, if the query has one, the partition filter. */
  function Filter(q: QueryAst): Expr {
    var window := Window(q.baseVersion, q.version);
    if q.modulo != 0 then And(window, Partition(q.shift, q.modulo, q.number)) else window
  }

  predicate Admits(q: QueryAst, row: Row) {
    InWindow(row, q.baseVersion, q.version) && InPartition(row, q.shift, q.modulo, q.number)
  }

  /** The first `k` conjunct slots of a query that were written. */
  function WithSlots(generated: seq<bool>, offset: nat, k: nat, e: Expr): Expr
    requires offset + k <= |generated|
  {
    if k == 0 then e
    else
      var r := WithSlots(generated, offset, k - 1, e);
      if generated[offset + k - 1] then And(r, Load(offset + k - 1)) else r
  }

  function ResultExpr(q: QueryAst, generated: seq<bool>, i: nat): Expr
    requires q.offset + q.numConjunct <= |generated| && i < |generated|
  {
    var e := WithSlots(generated, q.offset, q.numConjunct, Filter(q));
    if generated[i] then And(Load(i), e) else e
  }

  /** The slots that the queries name exist. */
  predicate SlotsExist(ast: Ast) {
    && |ast.queries| <= |ast.props|
    && forall i | 0 <= i < |ast.queries| ::
         |ast.queries| <= ast.queries[i].offset && ast.queries[i].offset + ast.queries[i].numConjunct <= |ast.props|
  }

  function Results(ast: Ast, generated: seq<bool>, n: nat): seq<Instr>
    requires SlotsExist(ast) && |generated| == |ast.props| && n <= |ast.queries|
  {
    if n == 0 then []
    else Results(ast, generated, n - 1) + [Store(n - 1, ResultExpr(ast.queries[n - 1], generated, n - 1))]
  }

  /** LLVMRowScanBuilder::buildScan. */
  method BuildRowScan(ast: Ast) returns (code: seq<Instr>)
    requires SlotsExist(ast) && Countable(ast, Flat(ast.fields))
    ensures var (conjuncts, generated) := Emitted(ast, Flat(ast.fields));
            code == conjuncts + Results(ast, generated, |ast.queries|)
  {
    var generated;
    code, generated := BuildPredicates(ast);
    ghost var conjuncts := code;
    for i := 0 to |ast.queries|
      invariant code == conjuncts + Results(ast, generated, i)
    {
      var res := BuildResult(ast.queries[i], generated, i);
      code := code + [Store(i, res)];
    }
  }

  /** The loop over the fields. */
  method BuildPredicates(ast: Ast) returns (code: seq<Instr>, generated: seq<bool>)
    requires Countable(ast, Flat(ast.fields))
    ensures (code, generated) == Emitted(ast, Flat(ast.fields))
  {
    hide Code, Countable;
    generated := seq(|ast.props|, _ => false);
    code := [];
    for f := 0 to |ast.fields|
      invariant Known(ast, Flat(ast.fields[..f]))
      invariant (code, generated) == Emitted(ast, Flat(ast.fields[..f]))
    {
      NextField(ast, f);
      var body;
      body, generated := BuildField(ast, ast.fields[f], generated);
      code := code + body;
    }
    assert ast.fields[..|ast.fields|] == ast.fields;
  }

  lemma NextField(ast: Ast, f: nat)
    requires Countable(ast, Flat(ast.fields)) && f < |ast.fields|
    ensures Known(ast, Flat(ast.fields[..f])) && Known(ast, Flat(ast.fields[..f + 1]))
    ensures forall p | p in ast.fields[f].preds :: p in Flat(ast.fields)
    ensures var before := Emitted(ast, Flat(ast.fields[..f]));
            var (code, generated) := Code(ast, ast.fields[f].preds, before.1);
            Emitted(ast, Flat(ast.fields[..f + 1])) == (before.0 + code, generated)
  {
    FlatPrefix(ast.fields, f);
    FlatPrefix(ast.fields, f + 1);
    FlatStep(ast.fields, f);
    EmittedConcat(ast, Flat(ast.fields[..f]), ast.fields[f].preds);
  }

  /** All predicates of a field. */
  method BuildField(ast: Ast, field: Field, generated0: seq<bool>) returns (code: seq<Instr>, generated: seq<bool>)
    requires Countable(ast, Flat(ast.fields)) && forall p | p in field.preds :: p in Flat(ast.fields)
    requires |generated0| == |ast.props|
    ensures (code, generated) == Code(ast, field.preds, generated0)
  {
    var preds := field.preds;
    code, generated := [], generated0;
    for k := 0 to |preds|
      invariant (code, generated) == Code(ast, preds[..k], generated0)
    {
      assert preds[..k + 1][..k] == preds[..k];
      TargetCount(ast, Flat(ast.fields), preds[k]);
      var ins;
      ins, generated := BuildPredicate(ast, preds[k], generated);
      code := code + [ins];
    }
    assert preds[..|preds|] == preds;
  }

  /** The final value of a query. */
  method BuildResult(q: QueryAst, generated: seq<bool>, i: nat) returns (res: Expr)
    requires q.offset + q.numConjunct <= |generated| && i < |generated|
    ensures res == ResultExpr(q, generated, i)
  {
    res := Window(q.baseVersion, q.version);
    if q.modulo != 0 {
      res := And(res, Partition(q.shift, q.modulo, q.number));
    }
    for k := 0 to q.numConjunct
      invariant res == WithSlots(generated, q.offset, k, Filter(q))
    {
      if generated[q.offset + k] {
        res := And(res, Load(q.offset + k));
      }
    }
    if generated[i] {
      res := And(Load(i), res);
    }
  }

  lemma FlatStep(fields: seq<Field>, f: nat)
    requires f < |fields|
    ensures Flat(fields[..f + 1]) == Flat(fields[..f]) + fields[f].preds
  {
    assert fields[..f + 1][..f] == fields[..f];
  }

  lemma {:induction false} FlatPrefix(fields: seq<Field>, f: nat)
    requires f <= |fields|
    ensures forall p | p in Flat(fields[..f]) :: p in Flat(fields)
    decreases |fields| - f
  {
    if f < |fields| {
      FlatStep(fields, f);
      FlatPrefix(fields, f + 1);
    } else {
      assert fields[..f] == fields;
    }
  }

  lemma {:induction false} RunConcat(a: seq<Instr>, b: seq<Instr>, row: Row, mem: seq<bool>)
    ensures Run(a + b, row, mem) == Run(b, row, Run(a, row, mem))
  {
    if b == [] {
      assert a + b == a;
    } else {
      var t, ins := b[..|b| - 1], b[|b| - 1];
      assert b == t + [ins] && a + b == (a + t) + [ins];
      RunConcat(a, t, row, mem);
      RunAppend(a + t, ins, row, mem);
      RunAppend(t, ins, row, Run(a, row, mem));
    }
  }

  lemma FilterAdmits(q: QueryAst, row: Row, mem: seq<bool>)
    ensures Eval(Filter(q), row, mem) == Admits(q, row)
  {
    var window, partition := Window(q.baseVersion, q.version), Partition(q.shift, q.modulo, q.number);
    assert Eval(window, row, mem) == InWindow(row, q.baseVersion, q.version);
    assert Eval(partition, row, mem) == InPartition(row, q.shift, q.modulo, q.number);
  }

  lemma {:induction false} EvalWithSlots(generated: seq<bool>, offset: nat, k: nat, e: Expr, row: Row, mem: seq<bool>)
    requires offset + k <= |generated| == |mem|
    ensures Eval(WithSlots(generated, offset, k, e), row, mem)
            <==> Eval(e, row, mem) && forall s: nat | offset <= s < offset + k :: generated[s] ==> mem[s]
  {
    if k > 0 {
      EvalWithSlots(generated, offset, k - 1, e, row, mem);
      assert Eval(Load(offset + k - 1), row, mem) == mem[offset + k - 1];
    }
  }

  /** The first `n` results are written, the other slots are as before. */
  lemma {:induction false} ResultsCorrect(ast: Ast, generated: seq<bool>, n: nat, row: Row, mem: seq<bool>)
    requires SlotsExist(ast) && |generated| == |mem| == |ast.props| && n <= |ast.queries| <= |mem|
    ensures var out := Run(Results(ast, generated, n), row, mem);
            && (forall i: nat | i < n :: out[i] == (Admits(ast.queries[i], row) && Merged(ast, generated, mem, i)))
            && (forall s: nat | n <= s < |mem| :: out[s] == mem[s])
  {
    if n > 0 {
      var i, q := n - 1, ast.queries[n - 1];
      ResultsCorrect(ast, generated, i, row, mem);
      var before := Run(Results(ast, generated, i), row, mem);
      RunAppend(Results(ast, generated, i), Store(i, ResultExpr(q, generated, i)), row, mem);
      ResultValue(ast, generated, i, row, mem, before);
    }
  }

  lemma ResultValue(ast: Ast, generated: seq<bool>, i: nat, row: Row, mem: seq<bool>, now: seq<bool>)
    requires SlotsExist(ast) && |generated| == |mem| == |now| == |ast.props| && i < |ast.queries| <= |mem|
    requires now[i] == mem[i] && forall s: nat | |ast.queries| <= s < |mem| :: now[s] == mem[s]
    ensures Eval(ResultExpr(ast.queries[i], generated, i), row, now)
            == (Admits(ast.queries[i], row) && Merged(ast, generated, mem, i))
  {
    var q := ast.queries[i];
    EvalWithSlots(generated, q.offset, q.numConjunct, Filter(q), row, now);
    FilterAdmits(q, row, now);
    assert Eval(Load(i), row, now) == now[i];
  }

  lemma TreeSlots(queries: seq<Query>, owner: seq<nat>, ast: Ast)
    requires AstFor(queries, owner, ast)
    ensures SlotsExist(ast) && Countable(ast, Flat(ast.fields)) && |ast.queries| == |queries| <= |ast.props|
  {
    TreeCountable(queries, owner, ast);
    forall i | 0 <= i < |queries|
      ensures |queries| <= ast.queries[i].offset
      ensures ast.queries[i].offset + ast.queries[i].numConjunct <= |ast.props|
    {
      QueryGroup(queries, owner, ast, i);
    }
  }

  lemma ConjunctsCorrect(ast: Ast, row: Row, mem: seq<bool>)
    requires Countable(ast, Flat(ast.fields)) && |mem| == |ast.props|
    ensures var (code, generated) := Emitted(ast, Flat(ast.fields)); SlotsOK(ast, generated, Run(code, row, mem), row)
  {
    var flat := Flat(ast.fields);
    var (code, generated) := Emitted(ast, flat);
    var out := Run(code, row, mem);
    forall t: nat | t < |mem| ensures SlotOK(ast, flat, generated, out, row, t) {
      EmittedCorrect(ast, flat, row, mem, t);
    }
  }

  lemma ResultMeans(queries: seq<Query>, owner: seq<nat>, ast: Ast, generated: seq<bool>, mem: seq<bool>, row: Row,
                    i: nat)
    requires AstFor(queries, owner, ast) && i < |queries|
    requires Countable(ast, Flat(ast.fields)) && SlotsOK(ast, generated, mem, row) && |ast.queries| <= |mem|
    requires ast.queries[i].offset + ast.queries[i].numConjunct <= |mem|
    ensures (Admits(ast.queries[i], row) && Merged(ast, generated, mem, i)) == Accepts(queries[i], row)
  {
    MergedIsCnf(queries, owner, ast, generated, mem, row, i);
    assert QueryOK(|queries|, queries, owner, ast.queries, ast.props, Members(ast.fields), i);
  }

  /** For every batch of well-formed queries and every row, whatever the result array held before: the program stores
      in slot `i` whether query `i` accepts the row. */
  lemma RowScanCorrect(queries: seq<Query>, owner: seq<nat>, ast: Ast, code: seq<Instr>, row: Row, mem: seq<bool>,
                       i: nat)
    requires AstFor(queries, owner, ast) && SlotsExist(ast) && Countable(ast, Flat(ast.fields))
    requires var (conjuncts, generated) := Emitted(ast, Flat(ast.fields));
             code == conjuncts + Results(ast, generated, |ast.queries|)
    requires |mem| == |ast.props| && i < |queries|
    ensures Run(code, row, mem)[i] <==> Accepts(queries[i], row)
  {
    TreeSlots(queries, owner, ast);
    var (conjuncts, generated) := Emitted(ast, Flat(ast.fields));
    var mid := Run(conjuncts, row, mem);
    RunConcat(conjuncts, Results(ast, generated, |ast.queries|), row, mem);
    ConjunctsCorrect(ast, row, mem);
    ResultsCorrect(ast, generated, |ast.queries|, row, mid);
    ResultMeans(queries, owner, ast, generated, mid, row, i);
  }

  /** A shared scan over many rows with one result array: every row is handed to exactly the queries that accept it. */
  method Scan(queries: seq<Query>, rows: seq<Row>) returns (results: seq<seq<bool>>)
    requires forall q | q in queries :: WellFormed(q)
    ensures |results| == |rows|
    ensures forall r | 0 <= r < |rows| :: Answers(queries, rows[r], results[r])
  {
    hide Counted, AllShared, FlagsOK, Accepts, WellFormed;
    var ast, owner := BuildAst(queries);
    TreeSlots(queries, owner, ast);
    var code := BuildRowScan(ast);
    var mem := seq(|ast.props|, _ => false);
    results := [];
    for r := 0 to |rows|
      invariant |mem| == |ast.props| && |results| == r
      invariant forall k | 0 <= k < r :: Answers(queries, rows[k], results[k])
    {
      forall i: nat | i < |queries| ensures Run(code, rows[r], mem)[i] <==> Accepts(queries[i], rows[r]) {
        RowScanCorrect(queries, owner, ast, code, rows[r], mem, i);
      }
      mem := Run(code, rows[r], mem);
      results := results + [mem[..|queries|]];
    }
  }

  /** The queries that accept the row are marked. */
  ghost predicate Answers(queries: seq<Query>, row: Row, result: seq<bool>) {
    |result| == |queries| && forall i | 0 <= i < |queries| :: result[i] <==> Accepts(queries[i], row)
  }
}
