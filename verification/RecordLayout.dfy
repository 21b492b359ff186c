/**
 Schemas and row records (common/Record.cpp, tellstore/Record.hpp) and the reading of records by the client
 (client/Table.cpp): where the fields lie, how a tuple is written into a buffer and read back.

 A fixed-size value is the sequence of its bytes, which both sides copy as they are.
 */
module RecordLayout {

  datatype FieldType = SmallInt | Int | BigInt | Float | Double | Text | Blob

  datatype TableType = Unknown | Transactional | NonTransactional

  type byte = x: int | 0 <= x < 0x100

  /** Identifier of a field. */
  type id = x: int | 0 <= x < 0x1_0000

  /** Names are byte strings. */
  type Name = seq<byte>

  datatype Field = Field(name: Name, kind: FieldType, notNull: bool)

  datatype Index = Index(name: Name, unique: bool, fields: seq<id>)

  /** The fields in the order of their identifiers, fixed-size fields first; the indexes in the order in which the map
      of indexes is traversed. */
  datatype Schema = Schema(table: TableType, fixed: seq<Field>, variable: seq<Field>, nullFields: nat, indexes: seq<Index>)

  predicate IsFixed(t: FieldType) {
    !t.Text? && !t.Blob?
  }

  /** Size and alignment of a field; for variable-sized fields those of the offset. */
  function SizeOf(t: FieldType): nat {
    match t
    case SmallInt => 2
    case Int => 4
    case BigInt => 8
    case Float => 4
    case Double => 8
    case Text => 4
    case Blob => 4
  }

  function Fields(s: Schema): seq<Field> {
    s.fixed + s.variable
  }

  function NullCount(fs: seq<Field>): nat {
    if fs == [] then 0 else NullCount(fs[..|fs| - 1]) + if fs[|fs| - 1].notNull then 0 else 1
  }

  predicate Sorted(fs: seq<Field>) {
    forall i, j | 0 <= i < j < |fs| :: SizeOf(fs[j].kind) <= SizeOf(fs[i].kind)
  }

  /** What adding fields keeps: distinct names, the fixed-size fields in descending alignment, the count of null fields. */
  predicate SchemaOK(s: Schema) {
    && (forall i | 0 <= i < |s.fixed| :: IsFixed(s.fixed[i].kind)) && (forall i | 0 <= i < |s.variable| :: !IsFixed(s.variable[i].kind))
    && Sorted(s.fixed) && s.nullFields == NullCount(Fields(s))
    && (forall i, j | 0 <= i < j < |Fields(s)| :: Fields(s)[i].name != Fields(s)[j].name)
  }

  /** The number of fields and the lengths of their names fit into 16 bits. */
  predicate FieldLimits(s: Schema) {
    |Fields(s)| <= 0xFFFF && forall i | 0 <= i < |Fields(s)| :: |Fields(s)[i].name| <= 0xFFFF
  }

  /** The indexes are a map from names. */
  predicate DistinctIndexes(xs: seq<Index>) {
    forall i, j | 0 <= i < j < |xs| :: xs[i].name != xs[j].name
  }

  predicate HasName(fs: seq<Field>, name: Name) {
    exists i | 0 <= i < |fs| :: fs[i].name == name
  }

  /** addField: refuses an existing name and every field once there are indexes, keeps fixed-size fields sorted and
      appends behind equal alignment. */
  method AddField(s: Schema, f: Field) returns (out: Schema, res: bool)
    requires SchemaOK(s) && FieldLimits(s)
    ensures SchemaOK(out) && FieldLimits(out) && (!res ==> out == s)
    ensures res <==> s.indexes == [] && |f.name| <= 0xFFFF && |Fields(s)| + 1 <= 0xFFFF && !HasName(Fields(s), f.name)
    ensures res ==> multiset(Fields(out)) == multiset(Fields(s)) + multiset{f} && out.indexes == [] && out.table == s.table
  {
    if s.indexes != [] {
      return s, false;
    }
    if |f.name| > 0xFFFF || |s.fixed| + |s.variable| + 1 > 0xFFFF {
      return s, false;
    }
    var pos := FindPlace(s.fixed, f);
    var found := FindName(s.fixed, f.name);
    if !found {
      found := FindName(s.variable, f.name);
    }
    NoName(s, f.name);
    if found {
      return s, false;
    }
    var nulls := s.nullFields + if f.notNull then 0 else 1;
    if IsFixed(f.kind) {
      out := s.(fixed := s.fixed[..pos] + [f] + s.fixed[pos..], nullFields := nulls);
      InsertedFixed(s, pos, f);
    } else {
      out := s.(variable := s.variable + [f], nullFields := nulls);
      InsertedVariable(s, f);
    }
    LimitsKept(s, out, f);
    res := true;
  }

  lemma LimitsKept(s: Schema, out: Schema, f: Field)
    requires FieldLimits(s) && |f.name| <= 0xFFFF && |Fields(s)| + 1 <= 0xFFFF
    requires multiset(Fields(out)) == multiset(Fields(s)) + multiset{f}
    ensures FieldLimits(out)
  {
    var m := multiset(Fields(out));
    assert |m| == |Fields(s)| + 1;
    forall i | 0 <= i < |Fields(out)| ensures |Fields(out)[i].name| <= 0xFFFF {
      assert Fields(out)[i] in m;
    }
  }

  /** addIndex: an index of an existing name is ignored. */
  method AddIndex(s: Schema, x: Index) returns (out: Schema)
    requires SchemaOK(s) && FieldLimits(s) && DistinctIndexes(s.indexes)
    ensures SchemaOK(out) && FieldLimits(out) && DistinctIndexes(out.indexes) && Fields(out) == Fields(s)
    ensures (exists y :: y in s.indexes && y.name == x.name) ==> out == s
    ensures (forall y | y in s.indexes :: y.name != x.name) ==> out == s.(indexes := s.indexes + [x])
  {
    out := s.(indexes := Emplace(s.indexes, x));
  }

  /** emplace of the map of indexes. */
  function Emplace(xs: seq<Index>, x: Index): (r: seq<Index>)
    ensures DistinctIndexes(xs) ==> DistinctIndexes(r)
    ensures forall i | 0 <= i < |r| :: r[i] in xs || r[i] == x
  {
    if exists i | 0 <= i < |xs| :: xs[i].name == x.name then xs else xs + [x]
  }

  /** The place behind the last field with at least the same alignment. */
  method FindPlace(fs: seq<Field>, f: Field) returns (pos: nat)
    requires Sorted(fs)
    ensures pos <= |fs| && (forall k | 0 <= k < pos :: SizeOf(f.kind) <= SizeOf(fs[k].kind))
    ensures forall k | pos <= k < |fs| :: SizeOf(fs[k].kind) < SizeOf(f.kind)
  {
    pos := 0;
    for i := 0 to |fs|
      invariant pos <= i && (forall k | 0 <= k < pos :: SizeOf(f.kind) <= SizeOf(fs[k].kind))
      invariant forall k | pos <= k < i :: SizeOf(fs[k].kind) < SizeOf(f.kind)
    {
      if SizeOf(f.kind) <= SizeOf(fs[i].kind) {
        pos := i + 1;
      }
    }
  }

  method FindName(fs: seq<Field>, name: Name) returns (found: bool)
    ensures found <==> HasName(fs, name)
  {
    for i := 0 to |fs|
      invariant !HasName(fs[..i], name)
    {
      if fs[i].name == name {
        return true;
      }
    }
    assert fs[..|fs|] == fs;
    return false;
  }

  lemma InsertedFixed(s: Schema, pos: nat, f: Field)
    requires SchemaOK(s) && IsFixed(f.kind) && !HasName(Fields(s), f.name) && pos <= |s.fixed|
    requires forall k | 0 <= k < pos :: SizeOf(f.kind) <= SizeOf(s.fixed[k].kind)
    requires forall k | pos <= k < |s.fixed| :: SizeOf(s.fixed[k].kind) < SizeOf(f.kind)
    ensures var out := s.(fixed := s.fixed[..pos] + [f] + s.fixed[pos..], nullFields := s.nullFields + if f.notNull then 0 else 1);
            SchemaOK(out) && multiset(Fields(out)) == multiset(Fields(s)) + multiset{f}
  {
    var fixed := s.fixed[..pos] + [f] + s.fixed[pos..];
    Inserted(Fields(s), pos, f);
    assert fixed + s.variable == Fields(s)[..pos] + [f] + Fields(s)[pos..];
    SortedInserted(s.fixed, pos, f);
  }

  lemma SortedInserted(fs: seq<Field>, pos: nat, f: Field)
    requires Sorted(fs) && IsFixed(f.kind) && pos <= |fs| && forall i | 0 <= i < |fs| :: IsFixed(fs[i].kind)
    requires forall k | 0 <= k < pos :: SizeOf(f.kind) <= SizeOf(fs[k].kind)
    requires forall k | pos <= k < |fs| :: SizeOf(fs[k].kind) < SizeOf(f.kind)
    ensures var gs := fs[..pos] + [f] + fs[pos..]; Sorted(gs) && forall i | 0 <= i < |gs| :: IsFixed(gs[i].kind)
  {
    var gs := fs[..pos] + [f] + fs[pos..];
    assert forall i | 0 <= i < |gs| :: gs[i] == if i < pos then fs[i] else if i == pos then f else fs[i - 1];
  }

  lemma InsertedVariable(s: Schema, f: Field)
    requires SchemaOK(s) && !IsFixed(f.kind) && !HasName(Fields(s), f.name)
    ensures var out := s.(variable := s.variable + [f], nullFields := s.nullFields + if f.notNull then 0 else 1);
            SchemaOK(out) && multiset(Fields(out)) == multiset(Fields(s)) + multiset{f}
  {
    var fs := Fields(s);
    Inserted(fs, |fs|, f);
    assert s.fixed + (s.variable + [f]) == fs[..|fs|] + [f] + fs[|fs|..];
  }

  lemma NoName(s: Schema, name: Name)
    ensures HasName(Fields(s), name) <==> HasName(s.fixed, name) || HasName(s.variable, name)
  {
    assert forall i | 0 <= i < |s.fixed| :: Fields(s)[i] == s.fixed[i];
    assert forall i | 0 <= i < |s.variable| :: Fields(s)[|s.fixed| + i] == s.variable[i];
  }

  lemma Inserted(fs: seq<Field>, pos: nat, f: Field)
    requires pos <= |fs| && !HasName(fs, f.name) && forall i, j | 0 <= i < j < |fs| :: fs[i].name != fs[j].name
    ensures var gs := fs[..pos] + [f] + fs[pos..];
            && NullCount(gs) == NullCount(fs) + (if f.notNull then 0 else 1)
            && (forall i, j | 0 <= i < j < |gs| :: gs[i].name != gs[j].name)
            && multiset(gs) == multiset(fs) + multiset{f}
  {
    var gs := fs[..pos] + [f] + fs[pos..];
    NullCountConcat(fs[..pos], fs[pos..]);
    NullCountConcat(fs[..pos], [f]);
    NullCountConcat(fs[..pos] + [f], fs[pos..]);
    assert fs == fs[..pos] + fs[pos..];
    DistinctInserted(fs, pos, f);
  }

  lemma DistinctInserted(fs: seq<Field>, pos: nat, f: Field)
    requires pos <= |fs| && !HasName(fs, f.name) && forall i, j | 0 <= i < j < |fs| :: fs[i].name != fs[j].name
    ensures var gs := fs[..pos] + [f] + fs[pos..]; forall i, j | 0 <= i < j < |gs| :: gs[i].name != gs[j].name
  {
    var gs := fs[..pos] + [f] + fs[pos..];
    forall i, j | 0 <= i < j < |gs| ensures gs[i].name != gs[j].name {
      assert gs[i] == if i < pos then fs[i] else if i == pos then f else fs[i - 1];
      assert gs[j] == if j < pos then fs[j] else if j == pos then f else fs[j - 1];
    }
  }

  lemma {:induction false} NullCountConcat(a: seq<Field>, b: seq<Field>)
    ensures NullCount(a + b) == NullCount(a) + NullCount(b)
  {
    if b == [] {
      assert a + b == a;
    } else {
      assert (a + b)[..|a + b| - 1] == a + b[..|b| - 1];
      NullCountConcat(a, b[..|b| - 1]);
    }
  }

  // ------------------------------------------------------------------ where the fields lie

  /** The smallest multiple of `a` that is at least `n`. */
  function Align(n: nat, a: nat): (r: nat)
    requires a > 0
    ensures n <= r < n + a
  {
    if n == 0 then 0 else if n <= a then a else a + Align(n - a, a)
  }

  function Align4(n: nat): (r: nat)
    ensures n <= r
  {
    Align(n, 4)
  }

  function Align8(n: nat): (r: nat)
    ensures n <= r
  {
    Align(n, 8)
  }

  /** Sizes and offsets are aligned to the least multiple of 8. */
  lemma {:induction false} Align8IsLeast(n: nat, m: nat)
    requires m % 8 == 0 && n <= m
    ensures Align8(n) % 8 == 0 && Align8(n) <= m
  {
    if n > 8 {
      Align8IsLeast(n - 8, m - 8);
      assert Align8(n) == 8 + Align8(n - 8);
    }
  }

  /** The variable-sized fields start at the least multiple of 4. */
  lemma {:induction false} Align4IsLeast(n: nat, m: nat)
    requires m % 4 == 0 && n <= m
    ensures Align4(n) % 4 == 0 && Align4(n) <= m
  {
    if n > 4 {
      Align4IsLeast(n - 4, m - 4);
      assert Align4(n) == 4 + Align4(n - 4);
    }
  }

  function TotalSize(fs: seq<Field>): nat {
    if fs == [] then 0 else TotalSize(fs[..|fs| - 1]) + SizeOf(fs[|fs| - 1].kind)
  }

  function FixedStart(s: Schema): nat {
    Align8(s.nullFields)
  }

  function VariableStart(s: Schema): nat {
    Align4(FixedStart(s) + TotalSize(s.fixed))
  }

  function OffsetOf(s: Schema, i: nat): nat
    requires i <= |Fields(s)|
  {
    if i < |s.fixed| then FixedStart(s) + TotalSize(s.fixed[..i]) else VariableStart(s) + 4 * (i - |s.fixed|)
  }

  /** The null byte of a field. */
  function NullIndex(s: Schema, i: nat): nat
    requires i <= |Fields(s)|
  {
    NullCount(Fields(s)[..i])
  }

  /** The bytes before the heap: with variable-sized fields one more offset marks its end. */
  function StaticSize(s: Schema): nat {
    if s.variable == [] then FixedStart(s) + TotalSize(s.fixed) else VariableStart(s) + 4 * (|s.variable| + 1)
  }

  /** Offset and null byte of the first `n` fields. */
  predicate Placed(s: Schema, offsets: seq<nat>, nullIndexes: seq<nat>, n: nat) {
    && |offsets| == |nullIndexes| == n <= |Fields(s)|
    && forall k | 0 <= k < n ::
         offsets[k] == OffsetOf(s, k) && nullIndexes[k] == if Fields(s)[k].notNull then 0 else NullIndex(s, k)
  }

  lemma NextPlaces(s: Schema, i: nat)
    requires i < |Fields(s)|
    ensures NullIndex(s, i + 1) == NullIndex(s, i) + if Fields(s)[i].notNull then 0 else 1
    ensures i < |s.fixed| ==> TotalSize(s.fixed[..i + 1]) == TotalSize(s.fixed[..i]) + SizeOf(Fields(s)[i].kind)
  {
    assert Fields(s)[..i + 1][..i] == Fields(s)[..i];
    if i < |s.fixed| {
      assert s.fixed[..i + 1][..i] == s.fixed[..i];
    }
  }

  lemma PlacedAppend(s: Schema, offsets: seq<nat>, nullIndexes: seq<nat>, offset: nat, nullIdx: nat)
    requires Placed(s, offsets, nullIndexes, |offsets|) && |offsets| < |Fields(s)|
    requires offset == OffsetOf(s, |offsets|) && nullIdx == NullIndex(s, |offsets|)
    ensures Placed(s, offsets + [offset], nullIndexes + [if Fields(s)[|offsets|].notNull then 0 else nullIdx], |offsets| + 1)
  {
  }

  /** The constructor of Record. */
  method BuildLayout(s: Schema) returns (offsets: seq<nat>, nullIndexes: seq<nat>, staticSize: nat)
    ensures Placed(s, offsets, nullIndexes, |Fields(s)|) && staticSize == StaticSize(s)
  {
    var nullIdx;
    offsets, nullIndexes, staticSize, nullIdx := BuildFixed(s);
    if s.variable != [] {
      staticSize := Align4(staticSize);
      offsets, nullIndexes, staticSize := BuildVariable(s, offsets, nullIndexes, staticSize, nullIdx);
    }
  }

  lemma VariablePlace(s: Schema, j: nat, offsets: seq<nat>, nullIndexes: seq<nat>, offset: nat, nullIdx: nat)
    requires j < |s.variable| && Placed(s, offsets, nullIndexes, |s.fixed| + j)
    requires offset == VariableStart(s) + 4 * j && nullIdx == NullIndex(s, |s.fixed| + j)
    ensures Placed(s, offsets + [offset], nullIndexes + [if s.variable[j].notNull then 0 else nullIdx], |s.fixed| + j + 1)
    ensures NullIndex(s, |s.fixed| + j + 1) == if s.variable[j].notNull then nullIdx else nullIdx + 1
  {
    hide NullIndex, Align;
    NextPlaces(s, |s.fixed| + j);
    PlacedAppend(s, offsets, nullIndexes, offset, nullIdx);
    assert Fields(s)[|s.fixed| + j] == s.variable[j];
  }

  /** The loop over the variable-sized fields, and the offset for the end of the heap. */
  method BuildVariable(s: Schema, offsets0: seq<nat>, nullIndexes0: seq<nat>, start: nat, nullIdx0: nat)
    returns (offsets: seq<nat>, nullIndexes: seq<nat>, staticSize: nat)
    requires Placed(s, offsets0, nullIndexes0, |s.fixed|) && nullIdx0 == NullIndex(s, |s.fixed|)
    requires start == VariableStart(s)
    ensures Placed(s, offsets, nullIndexes, |Fields(s)|) && staticSize == start + 4 * (|s.variable| + 1)
  {
    hide Placed, NullIndex;
    var nullIdx := nullIdx0;
    offsets, nullIndexes, staticSize := offsets0, nullIndexes0, start;
    for j := 0 to |s.variable|
      invariant Placed(s, offsets, nullIndexes, |s.fixed| + j) && nullIdx == NullIndex(s, |s.fixed| + j)
      invariant staticSize == start + 4 * j
    {
      VariablePlace(s, j, offsets, nullIndexes, staticSize, nullIdx);
      offsets, nullIndexes := offsets + [staticSize], nullIndexes + [if s.variable[j].notNull then 0 else nullIdx];
      nullIdx := if s.variable[j].notNull then nullIdx else nullIdx + 1;
      staticSize := staticSize + 4;
    }
    staticSize := staticSize + 4;
  }

  /** The loop over the fixed-size fields. */
  method BuildFixed(s: Schema) returns (offsets: seq<nat>, nullIndexes: seq<nat>, staticSize: nat, nullIdx: nat)
    ensures Placed(s, offsets, nullIndexes, |s.fixed|) && nullIdx == NullIndex(s, |s.fixed|)
    ensures staticSize == FixedStart(s) + TotalSize(s.fixed)
  {
    offsets, nullIndexes, staticSize, nullIdx := [], [], Align8(s.nullFields), 0;
    for i := 0 to |s.fixed|
      invariant Placed(s, offsets, nullIndexes, i) && nullIdx == NullIndex(s, i)
      invariant staticSize == FixedStart(s) + TotalSize(s.fixed[..i])
    {
      NextPlaces(s, i);
      PlacedAppend(s, offsets, nullIndexes, staticSize, nullIdx);
      offsets, nullIndexes := offsets + [staticSize], nullIndexes + [if s.fixed[i].notNull then 0 else nullIdx];
      nullIdx := if s.fixed[i].notNull then nullIdx else nullIdx + 1;
      staticSize := staticSize + SizeOf(s.fixed[i].kind);
    }
    assert s.fixed[..|s.fixed|] == s.fixed;
  }

  lemma {:induction false} AlignOK(n: nat)
    ensures Align8(n) % 8 == 0 && Align4(n) % 4 == 0
  {
    if n > 8 {
      AlignOK(n - 8);
      AlignOK(n - 4);
    } else if n > 4 {
      AlignOK(n - 4);
    }
  }

  lemma {:induction false} TotalMultiple(fs: seq<Field>, t: FieldType)
    requires IsFixed(t) && forall i | 0 <= i < |fs| :: SizeOf(t) <= SizeOf(fs[i].kind)
    ensures TotalSize(fs) % SizeOf(t) == 0
  {
    if fs != [] {
      TotalMultiple(fs[..|fs| - 1], t);
    }
  }

  lemma SumMultiple(a: nat, b: nat, t: FieldType)
    requires IsFixed(t) && a % 8 == 0 && b % SizeOf(t) == 0
    ensures (a + b) % SizeOf(t) == 0
  {
    var k := a / 8;
    assert a == 8 * k;
    match t
    case SmallInt => SumMultiple2(k, b);
    case Int => SumMultiple4(k, b);
    case BigInt => SumMultiple8(k, b);
    case Float => SumMultiple4(k, b);
    case Double => SumMultiple8(k, b);
  }

  lemma SumMultiple2(k: nat, b: nat)
    requires b % 2 == 0
    ensures (8 * k + b) % 2 == 0
  {
  }

  lemma SumMultiple4(k: nat, b: nat)
    requires b % 4 == 0
    ensures (8 * k + b) % 4 == 0
  {
  }

  lemma SumMultiple8(k: nat, b: nat)
    requires b % 8 == 0
    ensures (8 * k + b) % 8 == 0
  {
  }

  /** Every field is aligned. */
  lemma FieldsAreAligned(s: Schema, i: nat)
    requires SchemaOK(s) && i < |Fields(s)|
    ensures OffsetOf(s, i) % SizeOf(Fields(s)[i].kind) == 0
  {
    if i < |s.fixed| {
      AlignOK(s.nullFields);
      TotalMultiple(s.fixed[..i], s.fixed[i].kind);
      SumMultiple(FixedStart(s), TotalSize(s.fixed[..i]), s.fixed[i].kind);
    } else {
      var j: nat := i - |s.fixed|;
      AlignOK(FixedStart(s) + TotalSize(s.fixed));
      OffsetMultiple(VariableStart(s), j);
      assert Fields(s)[i] == s.variable[j];
    }
  }

  lemma OffsetMultiple(a: nat, j: nat)
    requires a % 4 == 0
    ensures (a + 4 * j) % 4 == 0
  {
  }

  lemma {:induction false} TotalGrows(fs: seq<Field>, i: nat, j: nat)
    requires i < j <= |fs|
    ensures TotalSize(fs[..i]) + SizeOf(fs[i].kind) <= TotalSize(fs[..j])
  {
    assert fs[..j][..j - 1] == fs[..j - 1];
    if i < j - 1 {
      TotalGrows(fs, i, j - 1);
    }
  }

  /** Fields lie behind the null bytes and do not overlap; all lie before the heap. */
  lemma FieldsAreDisjoint(s: Schema, i: nat, j: nat)
    requires SchemaOK(s) && i < j <= |Fields(s)|
    ensures s.nullFields <= OffsetOf(s, i) && OffsetOf(s, i) + SizeOf(Fields(s)[i].kind) <= OffsetOf(s, j)
    ensures OffsetOf(s, i) + SizeOf(Fields(s)[i].kind) <= StaticSize(s)
    ensures i >= |s.fixed| ==> OffsetOf(s, i + 1) == OffsetOf(s, i) + 4 && OffsetOf(s, i) + 8 <= StaticSize(s)
  {
    assert s.fixed[..|s.fixed|] == s.fixed;
    if i < |s.fixed| {
      TotalGrows(s.fixed, i, if j < |s.fixed| then j else |s.fixed|);
      TotalGrows(s.fixed, i, |s.fixed|);
    } else {
      assert Fields(s)[i] == s.variable[i - |s.fixed|];
    }
  }

  lemma {:induction false} NullGrows(fs: seq<Field>, i: nat, j: nat)
    requires i < j <= |fs|
    ensures NullCount(fs[..i]) + (if fs[i].notNull then 0 else 1) <= NullCount(fs[..j])
  {
    assert fs[..j][..j - 1] == fs[..j - 1];
    if i < j - 1 {
      NullGrows(fs, i, j - 1);
    }
  }

  /** Nullable fields have null bytes of their own. */
  lemma NullBytesAreDistinct(s: Schema, i: nat, j: nat)
    requires SchemaOK(s) && i < j <= |Fields(s)| && !Fields(s)[i].notNull
    ensures NullIndex(s, i) < s.nullFields && (j < |Fields(s)| ==> NullIndex(s, i) < NullIndex(s, j))
  {
    var fs := Fields(s);
    assert fs[..|fs|] == fs;
    NullGrows(fs, i, |fs|);
    if j < |fs| {
      NullGrows(fs, i, j);
    }
  }

  // ------------------------------------------------------------------ tuples

  /** The value of a field is its bytes. */
  type Tuple = map<Name, seq<int>>

  /** Fixed-size values have the size of their type. */
  predicate TupleOK(s: Schema, t: Tuple) {
    forall i | 0 <= i < |s.fixed| && s.fixed[i].name in t :: |t[s.fixed[i].name]| == SizeOf(s.fixed[i].kind)
  }

  /** Bytes on the heap for the first `n` variable-sized fields. */
  function HeapBytes(s: Schema, t: Tuple, n: nat): nat
    requires n <= |s.variable|
  {
    if n == 0 then 0
    else HeapBytes(s, t, n - 1) + if s.variable[n - 1].name in t then |t[s.variable[n - 1].name]| else 0
  }

  /** Where the heap data of field `i` starts. */
  function HeapOf(s: Schema, t: Tuple, i: nat): nat
    requires i <= |Fields(s)|
  {
    StaticSize(s) + if i < |s.fixed| then 0 else HeapBytes(s, t, i - |s.fixed|)
  }

  /** sizeOfTuple of a tuple. */
  function SizeOfTuple(s: Schema, t: Tuple): nat {
    Align8(HeapOf(s, t, |Fields(s)|))
  }

  /** A 32-bit number as four bytes, the least significant first. */
  function Encode32(x: nat): (b: seq<int>)
    requires x < 0x1_0000_0000
    ensures |b| == 4 && forall i | 0 <= i < 4 :: 0 <= b[i] < 0x100
  {
    var q := x / 0x100;
    var r := q / 0x100;
    [x % 0x100, q % 0x100, r % 0x100, r / 0x100]
  }

  function Decode32(b: seq<int>): int
    requires |b| == 4
  {
    b[0] + 0x100 * (b[1] + 0x100 * (b[2] + 0x100 * b[3]))
  }

  lemma DecodeEncode(x: nat)
    requires x < 0x1_0000_0000
    ensures Decode32(Encode32(x)) == x
  {
  }

  /** The four bytes at an offset. */
  function U32(mem: seq<int>, at: nat): int
    requires at + 4 <= |mem|
  {
    Decode32(mem[at..at + 4])
  }

  /** sizeOfTuple of a record. */
  function SizeOfRecord(s: Schema, mem: seq<int>): int
    requires StaticSize(s) <= |mem|
  {
    if s.variable == [] then Align8(StaticSize(s))
    else
      var end := U32(mem, StaticSize(s) - 4);
      if end >= 0 then Align8(end) else 0
  }

  function Write(mem: seq<int>, at: nat, data: seq<int>): seq<int>
    requires at + |data| <= |mem|
  {
    mem[..at] + data + mem[at + |data|..]
  }

  lemma WriteKeeps(mem: seq<int>, at: nat, data: seq<int>, from: nat, to: nat)
    requires at + |data| <= |mem| && from <= to <= |mem|
    requires to <= at || at + |data| <= from
    ensures Write(mem, at, data)[from..to] == mem[from..to]
  {
  }

  lemma WriteReads(mem: seq<int>, at: nat, data: seq<int>)
    requires at + |data| <= |mem|
    ensures Write(mem, at, data)[at..at + |data|] == data
  {
  }

  predicate AllZero(b: seq<int>) {
    forall k | 0 <= k < |b| :: b[k] == 0
  }

  /** The record holds field `i` of the tuple: the value, or a null byte and zeros. */
  predicate FieldHolds(s: Schema, mem: seq<int>, t: Tuple, i: nat)
    requires i < |Fields(s)|
  {
    var f, off, heap := Fields(s)[i], OffsetOf(s, i), HeapOf(s, t, i);
    && off + SizeOf(f.kind) <= |mem|
    && (!f.notNull ==> NullIndex(s, i) < |mem| && mem[NullIndex(s, i)] == if f.name in t then 0 else 1)
    && (!IsFixed(f.kind) ==> U32(mem, off) == heap)
    && (IsFixed(f.kind) && f.name !in t ==> AllZero(mem[off..off + SizeOf(f.kind)]))
    && (f.name in t ==>
          if IsFixed(f.kind) then mem[off..off + SizeOf(f.kind)] == t[f.name]
          else heap + |t[f.name]| <= |mem| && mem[heap..heap + |t[f.name]|] == t[f.name])
  }

  lemma {:induction false} HeapGrows(s: Schema, t: Tuple, m: nat, n: nat)
    requires m < n <= |s.variable|
    ensures HeapBytes(s, t, m) + (if s.variable[m].name in t then |t[s.variable[m].name]| else 0) <= HeapBytes(s, t, n)
  {
    if m < n - 1 {
      HeapGrows(s, t, m, n - 1);
    }
  }

  /** Heap data of a field ends where that of the next one begins, and all of it lies inside the record. */
  lemma HeapBehind(s: Schema, t: Tuple, i: nat, j: nat)
    requires SchemaOK(s) && i < j <= |Fields(s)|
    ensures var f := Fields(s)[i];
            HeapOf(s, t, i) + (if !IsFixed(f.kind) && f.name in t then |t[f.name]| else 0) <= HeapOf(s, t, j)
  {
    if i >= |s.fixed| {
      HeapGrows(s, t, i - |s.fixed|, j - |s.fixed|);
      assert Fields(s)[i] == s.variable[i - |s.fixed|];
    } else {
      assert Fields(s)[i] == s.fixed[i];
    }
  }

  /** A write behind everything that field `i` occupies, or of another null byte, keeps the field. */
  lemma FieldKept(s: Schema, mem: seq<int>, t: Tuple, i: nat, at: nat, data: seq<int>)
    requires SchemaOK(s) && i < |Fields(s)| && FieldHolds(s, mem, t, i) && at + |data| <= |mem|
    requires var f, off, heap := Fields(s)[i], OffsetOf(s, i), HeapOf(s, t, i);
             && (at + |data| <= off || off + SizeOf(f.kind) <= at)
             && (!f.notNull ==> at + |data| <= NullIndex(s, i) || NullIndex(s, i) < at)
             && (!IsFixed(f.kind) && f.name in t ==> at + |data| <= heap || heap + |t[f.name]| <= at)
    ensures FieldHolds(s, Write(mem, at, data), t, i)
  {
    hide SchemaOK, HeapOf, OffsetOf, NullIndex;
    var f, off, heap := Fields(s)[i], OffsetOf(s, i), HeapOf(s, t, i);
    WriteKeeps(mem, at, data, off, off + SizeOf(f.kind));
    if !f.notNull {
      WriteKeeps(mem, at, data, NullIndex(s, i), NullIndex(s, i) + 1);
      assert Write(mem, at, data)[NullIndex(s, i)..NullIndex(s, i) + 1][0] == mem[NullIndex(s, i)..NullIndex(s, i) + 1][0];
    }
    if !IsFixed(f.kind) && f.name in t {
      WriteKeeps(mem, at, data, heap, heap + |t[f.name]|);
    }
  }

  /** A record with three fields, two of them nullable: two null bytes, the 8-byte field, the 4-byte field, the offset of the
      text and the end of the heap, and the text. */
  lemma LayoutOfSchema(big: seq<int>)
    requires |big| == 8
    ensures var s := Schema(Transactional, [Field([97], BigInt, true), Field([98], Int, false)], [Field([99], Text, false)], 2, []);
            var t: Tuple := map[[97] := big, [99] := [1, 2, 3]];
            && OffsetOf(s, 0) == 8 && OffsetOf(s, 1) == 16 && OffsetOf(s, 2) == 20 && StaticSize(s) == 28
            && NullIndex(s, 1) == 0 && NullIndex(s, 2) == 1
            && HeapOf(s, t, 2) == 28 && HeapOf(s, t, 3) == 31 && SizeOfTuple(s, t) == 32 && Encode32(31) == [31, 0, 0, 0]
  {
    var a, b, c := Field([97], BigInt, true), Field([98], Int, false), Field([99], Text, false);
    var s := Schema(Transactional, [a, b], [c], 2, []);
    assert Fields(s) == [a, b, c] && [a, b][..1] == [a] && [a, b][..0] == [] && [a, b][..2] == [a, b] && [a][..0] == [];
    assert TotalSize([]) == 0 && TotalSize([a]) == 8 && TotalSize([a, b]) == 12;
    assert [a, b, c][..1] == [a] && [a, b, c][..2] == [a, b] && NullCount([a]) == 0 && NullCount([a, b]) == 1;
    assert Align8(2) == 8 && Align4(20) == 20 && Align8(31) == 32;
  }

  // ------------------------------------------------------------------ writing a record

  /** The aligned size of the record has 32 bits, as it has where the code computes it. */
  predicate Fits(s: Schema, t: Tuple) {
    SizeOfTuple(s, t) < 0x1_0000_0000
  }

  /** The bytes at the offset of a field. */
  function Contents(s: Schema, t: Tuple, i: nat): seq<int>
    requires i < |Fields(s)| && SchemaOK(s) && Fits(s, t)
  {
    var f := Fields(s)[i];
    HeapBehind(s, t, i, |Fields(s)|);
    if !IsFixed(f.kind) then Encode32(HeapOf(s, t, i))
    else if f.name in t then t[f.name] else seq(SizeOf(f.kind), _ => 0)
  }

  /** Everything lies inside a record of the tuple's size. */
  lemma Inside(s: Schema, t: Tuple, i: nat, size: nat)
    requires SchemaOK(s) && TupleOK(s, t) && Fits(s, t) && i < |Fields(s)| && size == SizeOfTuple(s, t)
    ensures var f, off := Fields(s)[i], OffsetOf(s, i);
            && |Contents(s, t, i)| == SizeOf(f.kind) && s.nullFields <= off && off + SizeOf(f.kind) <= StaticSize(s) <= size
            && (!f.notNull ==> NullIndex(s, i) < s.nullFields)
            && (!IsFixed(f.kind) && f.name in t ==> StaticSize(s) <= HeapOf(s, t, i) && HeapOf(s, t, i) + |t[f.name]| <= size)
  {
    FieldsAreDisjoint(s, i, |Fields(s)|);
    HeapBehind(s, t, i, |Fields(s)|);
    if !Fields(s)[i].notNull {
      NullBytesAreDistinct(s, i, |Fields(s)|);
    }
    if i < |s.fixed| {
      assert Fields(s)[i] == s.fixed[i];
    } else {
      assert Fields(s)[i] == s.variable[i - |s.fixed|];
    }
  }

  /** The null bytes of the fields from `i` on are still clear. */
  predicate NullsClear(s: Schema, mem: seq<int>, i: nat) {
    forall k: nat | i <= k < |Fields(s)| && !Fields(s)[k].notNull :: NullIndex(s, k) < |mem| && mem[NullIndex(s, k)] == 0
  }

  predicate HoldsUpTo(s: Schema, mem: seq<int>, t: Tuple, n: nat)
    requires n <= |Fields(s)|
  {
    forall k: nat | k < n :: FieldHolds(s, mem, t, k)
  }

  lemma EarlierKept(s: Schema, t: Tuple, i: nat, mem: seq<int>, at: nat, data: seq<int>)
    requires SchemaOK(s) && TupleOK(s, t) && Fits(s, t) && i < |Fields(s)| && |mem| == SizeOfTuple(s, t)
    requires HoldsUpTo(s, mem, t, i) && at + |data| <= |mem|
    requires || (at == NullIndex(s, i) && |data| == 1 && !Fields(s)[i].notNull)
             || (at == OffsetOf(s, i) && |data| == SizeOf(Fields(s)[i].kind))
             || at >= HeapOf(s, t, i)
    ensures HoldsUpTo(s, Write(mem, at, data), t, i)
  {
    Inside(s, t, i, |mem|);
    forall k: nat | k < i ensures FieldHolds(s, Write(mem, at, data), t, k) {
      Inside(s, t, k, |mem|);
      FieldsAreDisjoint(s, k, i);
      HeapBehind(s, t, k, i);
      if !Fields(s)[k].notNull {
        NullBytesAreDistinct(s, k, i);
      }
      assert FieldHolds(s, mem, t, k);
      FieldKept(s, mem, t, k, at, data);
    }
  }

  lemma LaterNullsKept(s: Schema, t: Tuple, i: nat, mem: seq<int>, at: nat, data: seq<int>, n: nat)
    requires SchemaOK(s) && TupleOK(s, t) && Fits(s, t) && i < |Fields(s)| && |mem| == SizeOfTuple(s, t)
    requires NullsClear(s, mem, n) && at + |data| <= |mem| && n >= i
    requires at >= s.nullFields || (at == NullIndex(s, i) && |data| == 1 && !Fields(s)[i].notNull && n > i)
    ensures NullsClear(s, Write(mem, at, data), n)
  {
    forall k: nat | n <= k < |Fields(s)| && !Fields(s)[k].notNull ensures Write(mem, at, data)[NullIndex(s, k)] == 0 {
      NullBytesAreDistinct(s, k, |Fields(s)|);
      if at < s.nullFields {
        NullBytesAreDistinct(s, i, k);
      }
    }
  }

  /** The buffer after field `i`: the null byte, the bytes at the field's offset, the heap data. */
  function Written1(s: Schema, t: Tuple, i: nat, mem: seq<int>): seq<int>
    requires i < |Fields(s)| && (Fields(s)[i].name !in t ==> NullIndex(s, i) < |mem|)
  {
    if Fields(s)[i].name in t then mem else Write(mem, NullIndex(s, i), [1])
  }

  function Written2(s: Schema, t: Tuple, i: nat, mem: seq<int>): seq<int>
    requires SchemaOK(s) && Fits(s, t) && i < |Fields(s)| && OffsetOf(s, i) + |Contents(s, t, i)| <= |mem|
  {
    Write(mem, OffsetOf(s, i), Contents(s, t, i))
  }

  function Written3(s: Schema, t: Tuple, i: nat, mem: seq<int>): seq<int>
    requires i < |Fields(s)|
    requires !IsFixed(Fields(s)[i].kind) && Fields(s)[i].name in t ==> HeapOf(s, t, i) + |t[Fields(s)[i].name]| <= |mem|
  {
    var f := Fields(s)[i];
    if !IsFixed(f.kind) && f.name in t then Write(mem, HeapOf(s, t, i), t[f.name]) else mem
  }

  /** A tuple that can be written into a record of its size. */
  predicate Writable(s: Schema, t: Tuple, size: nat) {
    SchemaOK(s) && TupleOK(s, t) && Fits(s, t) && size == SizeOfTuple(s, t)
  }

  predicate Ready(s: Schema, t: Tuple, i: nat, mem: seq<int>) {
    && Writable(s, t, |mem|) && i < |Fields(s)| && HoldsUpTo(s, mem, t, i) && NullsClear(s, mem, i)
    && (Fields(s)[i].notNull ==> Fields(s)[i].name in t)
  }

  lemma Step1(s: Schema, t: Tuple, i: nat, mem: seq<int>)
    requires Ready(s, t, i, mem)
    ensures Fields(s)[i].name !in t ==> NullIndex(s, i) < |mem|
    ensures var m := Written1(s, t, i, mem);
            && |m| == |mem| && HoldsUpTo(s, m, t, i) && NullsClear(s, m, i + 1)
            && (!Fields(s)[i].notNull ==> NullIndex(s, i) < |m| && m[NullIndex(s, i)] == if Fields(s)[i].name in t then 0 else 1)
  {
    Inside(s, t, i, |mem|);
    if Fields(s)[i].name !in t {
      EarlierKept(s, t, i, mem, NullIndex(s, i), [1]);
      LaterNullsKept(s, t, i, mem, NullIndex(s, i), [1], i + 1);
    }
  }

  /** A byte before a write stays. */
  lemma ByteKept(mem: seq<int>, at: nat, data: seq<int>, k: nat)
    requires at + |data| <= |mem| && k < at
    ensures Write(mem, at, data)[k] == mem[k]
  {
  }

  lemma Step2(s: Schema, t: Tuple, i: nat, mem: seq<int>)
    requires Writable(s, t, |mem|) && i < |Fields(s)| && HoldsUpTo(s, mem, t, i) && NullsClear(s, mem, i + 1)
    ensures OffsetOf(s, i) + |Contents(s, t, i)| <= |mem|
    ensures var m := Written2(s, t, i, mem);
            && |m| == |mem| && HoldsUpTo(s, m, t, i) && NullsClear(s, m, i + 1)
            && m[OffsetOf(s, i)..OffsetOf(s, i) + SizeOf(Fields(s)[i].kind)] == Contents(s, t, i)
            && (!Fields(s)[i].notNull ==> NullIndex(s, i) < |m| && m[NullIndex(s, i)] == mem[NullIndex(s, i)])
  {
    Inside(s, t, i, |mem|);
    var off, data := OffsetOf(s, i), Contents(s, t, i);
    EarlierKept(s, t, i, mem, off, data);
    LaterNullsKept(s, t, i, mem, off, data, i + 1);
    WriteReads(mem, off, data);
    if !Fields(s)[i].notNull {
      ByteKept(mem, off, data, NullIndex(s, i));
    }
  }

  lemma Step3(s: Schema, t: Tuple, i: nat, mem: seq<int>)
    requires Writable(s, t, |mem|) && i < |Fields(s)| && HoldsUpTo(s, mem, t, i) && NullsClear(s, mem, i + 1)
    requires !Fields(s)[i].notNull ==> NullIndex(s, i) < |mem| && mem[NullIndex(s, i)] == if Fields(s)[i].name in t then 0 else 1
    requires OffsetOf(s, i) + SizeOf(Fields(s)[i].kind) <= |mem|
    requires mem[OffsetOf(s, i)..OffsetOf(s, i) + SizeOf(Fields(s)[i].kind)] == Contents(s, t, i)
    ensures !IsFixed(Fields(s)[i].kind) && Fields(s)[i].name in t ==> HeapOf(s, t, i) + |t[Fields(s)[i].name]| <= |mem|
    ensures var m := Written3(s, t, i, mem); |m| == |mem| && HoldsUpTo(s, m, t, i + 1) && NullsClear(s, m, i + 1)
  {
    hide SchemaOK, TupleOK, NullsClear, StaticSize;
    Inside(s, t, i, |mem|);
    HeapBehind(s, t, i, |Fields(s)|);
    if !IsFixed(Fields(s)[i].kind) {
      DecodeEncode(HeapOf(s, t, i));
      if Fields(s)[i].name in t {
        HeapStep(s, t, i, mem);
      }
    }
    assert FieldHolds(s, Written3(s, t, i, mem), t, i);
  }

  lemma HeapStep(s: Schema, t: Tuple, i: nat, mem: seq<int>)
    requires Writable(s, t, |mem|) && i < |Fields(s)| && HoldsUpTo(s, mem, t, i) && NullsClear(s, mem, i + 1)
    requires !IsFixed(Fields(s)[i].kind) && Fields(s)[i].name in t
    ensures OffsetOf(s, i) + 4 <= HeapOf(s, t, i) && HeapOf(s, t, i) + |t[Fields(s)[i].name]| <= |mem|
    ensures var f, off, heap := Fields(s)[i], OffsetOf(s, i), HeapOf(s, t, i);
            var m := Write(mem, heap, t[f.name]);
            && |m| == |mem| && HoldsUpTo(s, m, t, i) && NullsClear(s, m, i + 1)
            && m[off..off + 4] == mem[off..off + 4] && m[heap..heap + |t[f.name]|] == t[f.name]
            && (!f.notNull ==> NullIndex(s, i) < |m| && m[NullIndex(s, i)] == mem[NullIndex(s, i)])
  {
    hide FieldHolds, SchemaOK, TupleOK, Fits, NullsClear, HoldsUpTo, StaticSize;
    var f, off, heap := Fields(s)[i], OffsetOf(s, i), HeapOf(s, t, i);
    Inside(s, t, i, |mem|);
    EarlierKept(s, t, i, mem, heap, t[f.name]);
    LaterNullsKept(s, t, i, mem, heap, t[f.name], i + 1);
    WriteReads(mem, heap, t[f.name]);
    WriteKeeps(mem, heap, t[f.name], off, off + 4);
    if !f.notNull {
      ByteKept(mem, heap, t[f.name], NullIndex(s, i));
    }
  }

  // ------------------------------------------------------------------ the methods

  /** The record holds the tuple: every field, and the end of the heap. */
  predicate RecordHolds(s: Schema, mem: seq<int>, t: Tuple) {
    && |mem| == SizeOfTuple(s, t) && StaticSize(s) <= |mem| && HoldsUpTo(s, mem, t, |Fields(s)|)
    && (s.variable != [] ==> StaticSize(s) >= 4 && U32(mem, StaticSize(s) - 4) == HeapOf(s, t, |Fields(s)|))
  }

  predicate Complete(s: Schema, t: Tuple) {
    forall i | 0 <= i < |Fields(s)| && Fields(s)[i].notNull :: Fields(s)[i].name in t
  }

  /** Copies bytes into a buffer. */
  method Copy(buffer: array<int>, at: nat, data: seq<int>)
    requires at + |data| <= buffer.Length
    modifies buffer
    ensures buffer[..] == Write(old(buffer[..]), at, data)
  {
    forall k | 0 <= k < |data| {
      buffer[at + k] := data[k];
    }
  }

  /** Record::create: writes the tuple into a buffer of its size, unless a value that must not be null is missing. */
  method Create(s: Schema, t: Tuple, buffer: array<int>) returns (ok: bool)
    requires Writable(s, t, buffer.Length)
    modifies buffer
    ensures ok <==> Complete(s, t)
    ensures ok ==> RecordHolds(s, buffer[..], t)
  {
    hide SchemaOK, TupleOK, Fits, FieldHolds, NullsClear;
    Copy(buffer, 0, seq(s.nullFields, _ => 0));
    ClearNulls(s, buffer[..]);
    for i := 0 to |Fields(s)|
      invariant HoldsUpTo(s, buffer[..], t, i) && NullsClear(s, buffer[..], i)
      invariant forall k | 0 <= k < i && Fields(s)[k].notNull :: Fields(s)[k].name in t
    {
      var f := Fields(s)[i];
      if f.notNull && f.name !in t {
        return false;
      }
      WriteField(s, t, i, buffer);
    }
    ok := true;
    if s.variable != [] {
      WriteEnd(s, t, buffer);
    }
  }

  lemma ClearNulls(s: Schema, mem: seq<int>)
    requires SchemaOK(s) && s.nullFields <= |mem| && forall k | 0 <= k < s.nullFields :: mem[k] == 0
    ensures NullsClear(s, mem, 0)
  {
    forall k: nat | k < |Fields(s)| && !Fields(s)[k].notNull ensures NullIndex(s, k) < |mem| && mem[NullIndex(s, k)] == 0 {
      NullBytesAreDistinct(s, k, |Fields(s)|);
    }
  }

  method WriteField(s: Schema, t: Tuple, i: nat, buffer: array<int>)
    requires Ready(s, t, i, buffer[..])
    modifies buffer
    ensures HoldsUpTo(s, buffer[..], t, i + 1) && NullsClear(s, buffer[..], i + 1)
  {
    var f := Fields(s)[i];
    Step1(s, t, i, buffer[..]);
    if f.name !in t {
      Copy(buffer, NullIndex(s, i), [1]);
    }
    Step2(s, t, i, buffer[..]);
    Copy(buffer, OffsetOf(s, i), Contents(s, t, i));
    Step3(s, t, i, buffer[..]);
    if !IsFixed(f.kind) && f.name in t {
      Copy(buffer, HeapOf(s, t, i), t[f.name]);
    }
  }

  /** The last offset points to the end of the heap. */
  method WriteEnd(s: Schema, t: Tuple, buffer: array<int>)
    requires Writable(s, t, buffer.Length) && s.variable != [] && HoldsUpTo(s, buffer[..], t, |Fields(s)|)
    modifies buffer
    ensures RecordHolds(s, buffer[..], t)
  {
    var at, end := StaticSize(s) - 4, HeapOf(s, t, |Fields(s)|);
    EndKept(s, t, buffer[..]);
    DecodeEncode(end);
    WriteReads(buffer[..], at, Encode32(end));
    Copy(buffer, at, Encode32(end));
  }

  lemma EndKept(s: Schema, t: Tuple, mem: seq<int>)
    requires Writable(s, t, |mem|) && s.variable != [] && HoldsUpTo(s, mem, t, |Fields(s)|)
    ensures 4 <= StaticSize(s) <= |mem|
    ensures HoldsUpTo(s, Write(mem, StaticSize(s) - 4, Encode32(HeapOf(s, t, |Fields(s)|))), t, |Fields(s)|)
  {
    var data := Encode32(HeapOf(s, t, |Fields(s)|));
    var at := StaticSize(s) - 4;
    forall k: nat | k < |Fields(s)| ensures FieldHolds(s, Write(mem, at, data), t, k) {
      Inside(s, t, k, |mem|);
      FieldsAreDisjoint(s, k, |Fields(s)|);
      assert FieldHolds(s, mem, t, k);
      FieldKept(s, mem, t, k, at, data);
    }
  }

  /** The part of the tuple that the schema knows. */
  function Known(s: Schema, t: Tuple): Tuple {
    map name | name in t && HasName(Fields(s), name) :: t[name]
  }

  /** toGenericTuple of the client inverts create. */
  method ToGenericTuple(s: Schema, record: seq<int>, ghost t: Tuple) returns (tuple: Tuple)
    requires SchemaOK(s) && TupleOK(s, t) && Fits(s, t) && Complete(s, t) && RecordHolds(s, record, t)
    ensures tuple == Known(s, t)
  {
    hide SchemaOK, TupleOK, Fits, FieldHolds, HeapOf, OffsetOf, NullIndex;
    tuple := map[];
    for i := 0 to |Fields(s)|
      invariant forall name :: name in tuple <==> name in t && HasName(Fields(s)[..i], name)
      invariant forall name | name in tuple :: tuple[name] == t[name]
    {
      var f, off := Fields(s)[i], OffsetOf(s, i);
      FieldReads(s, record, t, i);
      var isNull := !f.notNull && record[NullIndex(s, i)] != 0;
      if !isNull {
        var value := if IsFixed(f.kind) then record[off..off + SizeOf(f.kind)] else record[U32(record, off)..U32(record, off + 4)];
        tuple := tuple[f.name := value];
      }
      NextName(Fields(s), i);
    }
    assert Fields(s)[..|Fields(s)|] == Fields(s);
  }

  lemma NextName(fs: seq<Field>, i: nat)
    requires i < |fs|
    ensures forall name :: HasName(fs[..i + 1], name) <==> HasName(fs[..i], name) || name == fs[i].name
  {
    forall name ensures HasName(fs[..i + 1], name) <==> HasName(fs[..i], name) || name == fs[i].name {
      assert fs[..i + 1][i] == fs[i];
      assert forall k | 0 <= k < i :: fs[..i + 1][k] == fs[..i][k];
    }
  }

  /** What reading a field of a record gives. */
  lemma FieldReads(s: Schema, mem: seq<int>, t: Tuple, i: nat)
    requires SchemaOK(s) && TupleOK(s, t) && Fits(s, t) && Complete(s, t) && RecordHolds(s, mem, t) && i < |Fields(s)|
    ensures var f, off := Fields(s)[i], OffsetOf(s, i);
            && (!f.notNull ==> NullIndex(s, i) < |mem| && (mem[NullIndex(s, i)] != 0 <==> f.name !in t))
            && (f.notNull ==> f.name in t)
            && (IsFixed(f.kind) ==> off + SizeOf(f.kind) <= |mem| && (f.name in t ==> mem[off..off + SizeOf(f.kind)] == t[f.name]))
            && (!IsFixed(f.kind) ==> off + 8 <= |mem| && 0 <= U32(mem, off) <= U32(mem, off + 4) <= |mem|
                                     && (f.name in t ==> mem[U32(mem, off)..U32(mem, off + 4)] == t[f.name]))
  {
    hide SchemaOK, TupleOK, Fits, HeapOf, OffsetOf, NullIndex;
    var f, off := Fields(s)[i], OffsetOf(s, i);
    assert FieldHolds(s, mem, t, i);
    Inside(s, t, i, |mem|);
    if !IsFixed(f.kind) {
      NextOffset(s, mem, t, i);
    }
  }

  lemma KindOf(s: Schema, i: nat)
    requires SchemaOK(s) && i < |Fields(s)|
    ensures IsFixed(Fields(s)[i].kind) <==> i < |s.fixed|
  {
    assert Fields(s)[i] == if i < |s.fixed| then s.fixed[i] else s.variable[i - |s.fixed|];
  }

  /** The offset behind that of a variable-sized field is where its data ends. */
  lemma NextOffset(s: Schema, mem: seq<int>, t: Tuple, i: nat)
    requires SchemaOK(s) && TupleOK(s, t) && Fits(s, t) && RecordHolds(s, mem, t) && i < |Fields(s)|
    requires !IsFixed(Fields(s)[i].kind)
    ensures OffsetOf(s, i) + 8 <= |mem| && U32(mem, OffsetOf(s, i)) == HeapOf(s, t, i)
    ensures U32(mem, OffsetOf(s, i) + 4) == HeapOf(s, t, i + 1) <= |mem|
    ensures var f := Fields(s)[i]; HeapOf(s, t, i + 1) == HeapOf(s, t, i) + if f.name in t then |t[f.name]| else 0
  {
    hide Align, NullIndex;
    var n := |Fields(s)|;
    assert FieldHolds(s, mem, t, i);
    KindOf(s, i);
    assert Fields(s)[i] == s.variable[i - |s.fixed|];
    FieldsAreDisjoint(s, i, n);
    if i + 1 < n {
      assert FieldHolds(s, mem, t, i + 1);
      assert Fields(s)[i + 1] == s.variable[i + 1 - |s.fixed|];
      HeapBehind(s, t, i + 1, n);
    }
  }

  /** Both forms of sizeOfTuple agree. */
  lemma SizesAgree(s: Schema, mem: seq<int>, t: Tuple)
    requires SchemaOK(s) && RecordHolds(s, mem, t)
    ensures SizeOfRecord(s, mem) == SizeOfTuple(s, t) == |mem|
  {
  }
}
