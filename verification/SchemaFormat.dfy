/**
 The serialised form of a schema (Schema::serialize, serializedLength and deserialize in common/Record.cpp; the format is
 described in tellstore/Record.hpp).

 A schema lies inside a message, at a position that is a multiple of four.  Padding between a name and the next multiple
 of four is skipped by both sides; `fill` is what happens to lie there.  Integers have their least significant byte first.
 */
module SchemaFormat {
  import opened Common
  import opened RecordLayout

  // ------------------------------------------------------------------ numbers

  /** Writing a number as 16 bits drops the higher ones. */
  function Num16(n: nat): (b: seq<byte>)
    ensures |b| == 2
  {
    [n % 0x100, n / 0x100 % 0x100]
  }

  function Num32(n: nat): (b: seq<byte>)
    ensures |b| == 4
  {
    Num16(n) + Num16(n / 0x1_0000)
  }

  function Read16(d: seq<byte>, p: nat): (n: id)
    requires p + 2 <= |d|
  {
    var low: nat, high: nat := d[p], d[p + 1];
    low + 0x100 * high
  }

  function Read32(d: seq<byte>, p: nat): (n: nat)
    requires p + 4 <= |d|
  {
    Read16(d, p) + 0x1_0000 * Read16(d, p + 2)
  }

  /** The data holds the bytes `b` at position `p`. */
  predicate At(d: seq<byte>, p: nat, b: seq<byte>) {
    p + |b| <= |d| && d[p..p + |b|] == b
  }

  lemma AtConcat(d: seq<byte>, p: nat, a: seq<byte>, b: seq<byte>)
    ensures At(d, p, a + b) <==> At(d, p, a) && At(d, p + |a|, b)
  {
    if p + |a| + |b| <= |d| {
      var e := d[p..p + |a| + |b|];
      assert e[..|a|] == d[p..p + |a|] && e[|a|..] == d[p + |a|..p + |a| + |b|];
      assert (a + b)[..|a|] == a && (a + b)[|a|..] == b;
      assert e == e[..|a|] + e[|a|..];
    }
  }

  lemma AtByte(d: seq<byte>, p: nat, b: seq<byte>, i: nat)
    requires At(d, p, b) && i < |b|
    ensures d[p + i] == b[i]
  {
    assert d[p..p + |b|][i] == b[i];
  }

  lemma Num16Value(n: nat)
    ensures n % 0x100 + 0x100 * (n / 0x100 % 0x100) == n % 0x1_0000
  {
    var q, r := n / 0x100, n % 0x100;
    RemainderOf(q / 0x100, r + 0x100 * (q % 0x100));
  }

  lemma RemainderOf(k: nat, r: nat)
    requires r < 0x1_0000
    ensures (0x1_0000 * k + r) % 0x1_0000 == r
  {
  }

  /** A 16-bit number is read back modulo 2^16. */
  lemma Read16Of(d: seq<byte>, p: nat, n: nat)
    requires At(d, p, Num16(n))
    ensures Read16(d, p) == n % 0x1_0000
  {
    AtByte(d, p, Num16(n), 0);
    AtByte(d, p, Num16(n), 1);
    Num16Value(n);
  }

  lemma Read32Of(d: seq<byte>, p: nat, n: nat)
    requires At(d, p, Num32(n)) && n < 0x1_0000_0000
    ensures Read32(d, p) == n
  {
    AtConcat(d, p, Num16(n), Num16(n / 0x1_0000));
    Read16Of(d, p, n);
    Read16Of(d, p + 2, n / 0x1_0000);
  }

  function TypeCode(t: FieldType): nat {
    match t
    case SmallInt => 2
    case Int => 3
    case BigInt => 4
    case Float => 5
    case Double => 6
    case Text => 7
    case Blob => 8
  }

  /** Other codes are asserted not to occur. */
  function TypeOf(code: nat): Option<FieldType> {
    match code
    case 2 => Some(SmallInt)
    case 3 => Some(Int)
    case 4 => Some(BigInt)
    case 5 => Some(Float)
    case 6 => Some(Double)
    case 7 => Some(Text)
    case 8 => Some(Blob)
    case _ => None
  }

  function TableCode(t: TableType): byte {
    match t
    case Unknown => 0
    case Transactional => 1
    case NonTransactional => 2
  }

  function TableOf(code: byte): Option<TableType> {
    match code
    case 0 => Some(Unknown)
    case 1 => Some(Transactional)
    case 2 => Some(NonTransactional)
    case _ => None
  }

  // ------------------------------------------------------------------ the format

  function Flag(b: bool): byte {
    if b then 1 else 0
  }

  function Fill(n: nat, fill: byte): (b: seq<byte>)
    ensures |b| == n
  {
    seq(n, _ => fill)
  }

  /** A field without its padding. */
  function FieldHead(f: Field): (b: seq<byte>)
    ensures |b| == 8 + |f.name|
  {
    Num16(TypeCode(f.kind)) + ([Flag(f.notNull), 0] + (Num32(|f.name|) + f.name))
  }

  function FieldBytes(f: Field, fill: byte): (b: seq<byte>)
    ensures |b| == Align4(8 + |f.name|)
  {
    FieldHead(f) + Fill(Align4(8 + |f.name|) - (8 + |f.name|), fill)
  }

  function FieldsBytes(fs: seq<Field>, fill: byte): seq<byte> {
    if fs == [] then [] else FieldBytes(fs[0], fill) + FieldsBytes(fs[1..], fill)
  }

  function IdBytes(ids: seq<id>): seq<byte> {
    if ids == [] then [] else Num16(ids[0]) + IdBytes(ids[1..])
  }

  /** The name of an index and, to make its length even, the zero behind it. */
  function EvenName(name: Name): (b: seq<byte>)
    ensures |b| == |name| + |name| % 2
  {
    if |name| % 2 == 0 then name else name + [0]
  }

  function IndexHead(x: Index): (b: seq<byte>)
    ensures |b| == 6 + |x.name| + |x.name| % 2
  {
    Num16(|x.fields|) + ([Flag(x.unique), 0] + (Num16(|x.name|) + EvenName(x.name)))
  }

  function IndexBytes(x: Index): seq<byte> {
    IndexHead(x) + IdBytes(x.fields)
  }

  function IndexesBytes(xs: seq<Index>): seq<byte> {
    if xs == [] then [] else IndexBytes(xs[0]) + IndexesBytes(xs[1..])
  }

  function SchemaHead(s: Schema): (b: seq<byte>)
    ensures |b| == 4
  {
    Num16(|s.fixed| + |s.variable|) + [TableCode(s.table), 0]
  }

  function SchemaBytes(s: Schema, fill: byte): seq<byte> {
    SchemaHead(s) + (FieldsBytes(Fields(s), fill) + (Num16(|s.indexes|) + IndexesBytes(s.indexes)))
  }

  /** The bytes of every field: the code of its type, the flag, the length of the name, least significant bytes first, and
      the name. */
  lemma BytesOfField(f: Field, fill: byte)
    requires |f.name| < 0x100
    ensures var code: byte := match f.kind
                              case SmallInt => 2 case Int => 3 case BigInt => 4 case Float => 5 case Double => 6
                              case Text => 7 case Blob => 8;
            var flag: byte := if f.notNull then 1 else 0;
            var length: byte := |f.name|;
            FieldBytes(f, fill)[..8 + |f.name|] == [code, 0, flag, 0, length, 0, 0, 0] + f.name
  {
    assert |f.name| / 0x100 == 0 && |f.name| / 0x1_0000 == 0;
    assert FieldHead(f) == [TypeCode(f.kind), 0] + ([Flag(f.notNull), 0] + ([|f.name|, 0, 0, 0] + f.name));
  }

  lemma BytesOfHead(s: Schema)
    requires |Fields(s)| < 0x100
    ensures var code: byte := match s.table case Unknown => 0 case Transactional => 1 case NonTransactional => 2;
            SchemaHead(s) == [|Fields(s)|, 0, code, 0]
  {
  }

  /** The bytes of a small schema: a transactional table with two fields and a unique index on both. */
  lemma BytesOfSchema(fill: byte)
    ensures var s := Schema(Transactional, [Field([97], Int, true)], [Field([98, 99], Text, false)], 1, [Index([105], true, [1, 0])]);
            SchemaBytes(s, fill) ==
              [2, 0, 1, 0]
              + [3, 0, 1, 0, 1, 0, 0, 0, 97, fill, fill, fill]
              + [7, 0, 0, 0, 2, 0, 0, 0, 98, 99, fill, fill]
              + [1, 0]
              + [2, 0, 1, 0, 1, 0, 105, 0, 1, 0, 0, 0]
  {
    hide FieldsBytes, IndexesBytes;
    var a, b, x := Field([97], Int, true), Field([98, 99], Text, false), Index([105], true, [1, 0]);
    var s := Schema(Transactional, [a], [b], 1, [x]);
    assert Fields(s) == [a, b];
    BytesOfFields(fill);
    BytesOfIndex();
    assert SchemaHead(s) == [2, 0, 1, 0] && Num16(1) == [1, 0];
  }

  lemma BytesOfFields(fill: byte)
    ensures FieldsBytes([Field([97], Int, true), Field([98, 99], Text, false)], fill) ==
              [3, 0, 1, 0, 1, 0, 0, 0, 97, fill, fill, fill] + [7, 0, 0, 0, 2, 0, 0, 0, 98, 99, fill, fill]
  {
    var a, b := Field([97], Int, true), Field([98, 99], Text, false);
    assert [a, b][1..] == [b] && [b][1..] == [];
    assert Align4(9) == 12 && Align4(10) == 12;
    assert FieldBytes(a, fill) == [3, 0, 1, 0, 1, 0, 0, 0, 97, fill, fill, fill];
    assert FieldBytes(b, fill) == [7, 0, 0, 0, 2, 0, 0, 0, 98, 99, fill, fill];
    assert FieldsBytes([], fill) == [] && FieldsBytes([b], fill) == FieldBytes(b, fill) + [];
  }

  lemma BytesOfIndex()
    ensures IndexesBytes([Index([105], true, [1, 0])]) == [2, 0, 1, 0, 1, 0, 105, 0, 1, 0, 0, 0]
  {
    var x := Index([105], true, [1, 0]);
    assert [x][1..] == [] && [1, 0][1..] == [0] && [0][1..] == [];
    assert IdBytes([]) == [] && IdBytes([0]) == [0, 0] && IdBytes([1, 0]) == [1, 0] + [0, 0];
    assert IndexesBytes([]) == [] && IndexesBytes([x]) == IndexBytes(x) + [];
  }

  // ------------------------------------------------------------------ the writer

  lemma {:induction false} FieldsConcat(a: seq<Field>, b: seq<Field>, fill: byte)
    ensures FieldsBytes(a + b, fill) == FieldsBytes(a, fill) + FieldsBytes(b, fill)
  {
    if a == [] {
      assert a + b == b;
    } else {
      assert (a + b)[1..] == a[1..] + b;
      FieldsConcat(a[1..], b, fill);
    }
  }

  lemma {:induction false} IdsConcat(a: seq<id>, b: seq<id>)
    ensures IdBytes(a + b) == IdBytes(a) + IdBytes(b)
  {
    if a == [] {
      assert a + b == b;
    } else {
      assert (a + b)[1..] == a[1..] + b;
      IdsConcat(a[1..], b);
    }
  }

  lemma {:induction false} IndexesConcat(a: seq<Index>, b: seq<Index>)
    ensures IndexesBytes(a + b) == IndexesBytes(a) + IndexesBytes(b)
  {
    if a == [] {
      assert a + b == b;
    } else {
      assert (a + b)[1..] == a[1..] + b;
      IndexesConcat(a[1..], b);
    }
  }

  lemma FieldsNext(fs: seq<Field>, i: nat, fill: byte)
    requires i < |fs|
    ensures FieldsBytes(fs[..i + 1], fill) == FieldsBytes(fs[..i], fill) + FieldBytes(fs[i], fill)
  {
    assert fs[..i + 1] == fs[..i] + [fs[i]];
    FieldsConcat(fs[..i], [fs[i]], fill);
  }

  lemma IdsNext(ids: seq<id>, i: nat)
    requires i < |ids|
    ensures IdBytes(ids[..i + 1]) == IdBytes(ids[..i]) + Num16(ids[i])
  {
    assert ids[..i + 1] == ids[..i] + [ids[i]];
    IdsConcat(ids[..i], [ids[i]]);
  }

  lemma IndexesNext(xs: seq<Index>, i: nat)
    requires i < |xs|
    ensures IndexesBytes(xs[..i + 1]) == IndexesBytes(xs[..i]) + IndexBytes(xs[i])
  {
    assert xs[..i + 1] == xs[..i] + [xs[i]];
    IndexesConcat(xs[..i], [xs[i]]);
  }

  /** Aligning behind a multiple of four. */
  lemma {:induction false} AlignBehind(k: nat, n: nat)
    ensures Align4(4 * k + n) == 4 * k + Align4(n)
  {
    if k > 0 {
      AlignBehind(k - 1, n);
      if n == 0 {
        AlignOfMultiple(k);
      }
    }
  }

  lemma {:induction false} AlignOfMultiple(k: nat)
    ensures Align4(4 * k) == 4 * k
  {
    if k > 0 {
      AlignOfMultiple(k - 1);
    }
  }

  lemma AlignFrom(p: nat, n: nat)
    requires p % 4 == 0
    ensures Align4(p + n) == p + Align4(n) && Align4(n) % 4 == 0 && (p + Align4(n)) % 4 == 0
  {
    AlignBehind(p / 4, n);
    AlignOK(n);
    SumOfMultiples(p / 4, Align4(n) / 4);
    assert p == 4 * (p / 4) && Align4(n) == 4 * (Align4(n) / 4);
  }

  lemma SumOfMultiples(k: nat, m: nat)
    ensures (4 * k + 4 * m) % 4 == 0
  {
  }

  /** writeField. */
  method WriteField(out: seq<byte>, f: Field, fill: byte) returns (r: seq<byte>)
    requires |out| % 4 == 0
    ensures r == out + FieldBytes(f, fill) && |r| % 4 == 0
  {
    r := out + Num16(TypeCode(f.kind));
    r := r + [Flag(f.notNull)];
    r := r + [0];
    r := r + Num32(|f.name|);
    r := r + f.name;
    assert r == out + FieldHead(f);
    AlignFrom(|out|, 8 + |f.name|);
    r := r + Fill(Align4(|r|) - |r|, fill);
  }

  /** serialize, behind what the message already holds. */
  method Serialize(out: seq<byte>, s: Schema, fill: byte) returns (r: seq<byte>)
    requires |out| % 4 == 0
    ensures r == out + SchemaBytes(s, fill)
  {
    hide FieldsBytes, IndexesBytes;
    r := out + Num16(|s.fixed| + |s.variable|);
    r := r + [TableCode(s.table)];
    r := r + [0];
    assert r == out + SchemaHead(s);
    r := WriteFields(r, s.fixed, fill);
    r := WriteFields(r, s.variable, fill);
    FieldsConcat(s.fixed, s.variable, fill);
    r := r + Num16(|s.indexes|);
    r := WriteIndexes(r, s.indexes);
  }

  method WriteIndexes(out: seq<byte>, xs: seq<Index>) returns (r: seq<byte>)
    ensures r == out + IndexesBytes(xs)
  {
    hide IndexBytes;
    r := out;
    for i := 0 to |xs|
      invariant r == out + IndexesBytes(xs[..i])
    {
      IndexesNext(xs, i);
      r := WriteIndex(r, xs[i]);
    }
    assert xs[..|xs|] == xs;
  }

  method WriteFields(out: seq<byte>, fs: seq<Field>, fill: byte) returns (r: seq<byte>)
    requires |out| % 4 == 0
    ensures r == out + FieldsBytes(fs, fill) && |r| % 4 == 0
  {
    r := out;
    for i := 0 to |fs|
      invariant r == out + FieldsBytes(fs[..i], fill) && |r| % 4 == 0
    {
      FieldsNext(fs, i, fill);
      r := WriteField(r, fs[i], fill);
    }
    assert fs[..|fs|] == fs;
  }

  method WriteIndex(out: seq<byte>, x: Index) returns (r: seq<byte>)
    ensures r == out + IndexBytes(x)
  {
    r := out + Num16(|x.fields|);
    r := r + [Flag(x.unique)];
    r := r + [0];
    r := r + Num16(|x.name|);
    r := r + EvenName(x.name);
    assert r == out + IndexHead(x);
    ghost var before := r;
    for i := 0 to |x.fields|
      invariant r == before + IdBytes(x.fields[..i])
    {
      IdsNext(x.fields, i);
      r := r + Num16(x.fields[i]);
    }
    assert x.fields[..|x.fields|] == x.fields;
  }

  lemma {:induction false} IdLength(ids: seq<id>)
    ensures |IdBytes(ids)| == 2 * |ids|
  {
    if ids != [] {
      IdLength(ids[1..]);
    }
  }

  /** serializedLength: what serialize writes, for every schema. */
  method SerializedLength(s: Schema, ghost fill: byte) returns (n: nat)
    ensures n == |SchemaBytes(s, fill)|
  {
    n := 4;
    n := LengthOfFields(n, s.fixed, fill);
    n := LengthOfFields(n, s.variable, fill);
    FieldsConcat(s.fixed, s.variable, fill);
    n := n + 2;
    ghost var before := n;
    for i := 0 to |s.indexes|
      invariant n == before + |IndexesBytes(s.indexes[..i])|
    {
      var x := s.indexes[i];
      IndexesNext(s.indexes, i);
      IdLength(x.fields);
      n := n + 6;
      n := n + |x.name| + |x.name| % 2;
      n := n + 2 * |x.fields|;
    }
    assert s.indexes[..|s.indexes|] == s.indexes;
  }

  method LengthOfFields(start: nat, fs: seq<Field>, ghost fill: byte) returns (n: nat)
    requires start % 4 == 0
    ensures n == start + |FieldsBytes(fs, fill)| && n % 4 == 0
  {
    n := start;
    for i := 0 to |fs|
      invariant n == start + |FieldsBytes(fs[..i], fill)| && n % 4 == 0
    {
      FieldsNext(fs, i, fill);
      AlignFrom(n, 8 + |fs[i].name|);
      n := n + 8;
      n := n + |fs[i].name|;
      n := Align4(n);
    }
    assert fs[..|fs|] == fs;
  }

  // ------------------------------------------------------------------ the reader

  function ParseField(d: seq<byte>, p: nat): Option<(Field, nat)> {
    if p + 8 > |d| then None
    else
      var len := Read32(d, p + 4);
      var end := Align4(p + 8 + len);
      match TypeOf(Read16(d, p))
      case None => None
      case Some(t) => if end > |d| then None else Some((Field(d[p + 8..p + 8 + len], t, d[p + 2] != 0), end))
  }

  /** A field that has been read goes to the end of its kind. */
  function Grow(s: Schema, f: Field): Schema {
    var nulls := s.nullFields + if f.notNull then 0 else 1;
    if IsFixed(f.kind) then s.(fixed := s.fixed + [f], nullFields := nulls)
    else s.(variable := s.variable + [f], nullFields := nulls)
  }

  function ParseFields(d: seq<byte>, p: nat, n: nat, s: Schema): Option<(Schema, nat)>
    decreases n
  {
    if n == 0 then Some((s, p))
    else
      match ParseField(d, p)
      case None => None
      case Some((f, end)) => ParseFields(d, end, n - 1, Grow(s, f))
  }

  function ReadIds(d: seq<byte>, p: nat, n: nat): (ids: seq<id>)
    requires p + 2 * n <= |d|
    ensures |ids| == n
  {
    if n == 0 then [] else ReadIds(d, p, n - 1) + [Read16(d, p + 2 * (n - 1))]
  }

  function ParseIndex(d: seq<byte>, p: nat): Option<(Index, nat)> {
    if p + 6 > |d| then None
    else
      var len: nat, n: nat := Read16(d, p + 4), Read16(d, p);
      var q := p + 6 + len + len % 2;
      if q + 2 * n > |d| then None
      else Some((Index(d[p + 6..p + 6 + len], d[p + 2] != 0, ReadIds(d, q, n)), q + 2 * n))
  }

  function ParseIndexes(d: seq<byte>, p: nat, n: nat, xs: seq<Index>): Option<(seq<Index>, nat)>
    decreases n
  {
    if n == 0 then Some((xs, p))
    else
      match ParseIndex(d, p)
      case None => None
      case Some((x, end)) => ParseIndexes(d, end, n - 1, Emplace(xs, x))
  }

  function Empty(t: TableType): Schema {
    Schema(t, [], [], 0, [])
  }

  /** The count of indexes and the indexes, behind the fields. */
  function ParseTail(d: seq<byte>, p: nat, s: Schema): Option<(Schema, nat)> {
    if p + 2 > |d| then None
    else
      match ParseIndexes(d, p + 2, Read16(d, p), s.indexes)
      case None => None
      case Some((xs, end)) => Some((s.(indexes := xs), end))
  }

  /** The schema at a position of a message and the position behind it; none if the message ends before. */
  function Parse(d: seq<byte>, p: nat): Option<(Schema, nat)> {
    if p + 4 > |d| then None
    else
      match TableOf(d[p + 2])
      case None => None
      case Some(t) =>
        match ParseFields(d, p + 4, Read16(d, p), Empty(t))
        case None => None
        case Some((s, end)) => ParseTail(d, end, s)
  }

  /** deserialize. */
  method Deserialize(d: seq<byte>, start: nat) returns (r: Option<(Schema, nat)>)
    ensures r == Parse(d, start)
  {
    hide ParseField, Grow, ParseTail;
    if start + 4 > |d| || TableOf(d[start + 2]).None? {
      return None;
    }
    var numColumns: nat := Read16(d, start);
    var p: nat, s := start + 4, Empty(TableOf(d[start + 2]).value);
    for i := 0 to numColumns
      invariant ParseFields(d, start + 4, numColumns, Empty(TableOf(d[start + 2]).value)) == ParseFields(d, p, numColumns - i, s)
    {
      var f := ParseField(d, p);
      if f.None? {
        return None;
      }
      s := Grow(s, f.value.0);
      p := f.value.1;
    }
    r := ReadIndexes(d, p, s);
  }

  method ReadIndexes(d: seq<byte>, start: nat, s: Schema) returns (r: Option<(Schema, nat)>)
    ensures r == ParseTail(d, start, s)
  {
    hide ParseIndex, Emplace, Read16;
    if start + 2 > |d| {
      return None;
    }
    var numIndexes: nat := Read16(d, start);
    var p: nat, xs := start + 2, s.indexes;
    for i := 0 to numIndexes
      invariant ParseIndexes(d, start + 2, numIndexes, s.indexes) == ParseIndexes(d, p, numIndexes - i, xs)
    {
      var x := ReadIndex(d, p);
      if x.None? {
        return None;
      }
      xs := Emplace(xs, x.value.0);
      p := x.value.1;
    }
    r := Some((s.(indexes := xs), p));
  }

  method ReadIndex(d: seq<byte>, p: nat) returns (r: Option<(Index, nat)>)
    ensures r == ParseIndex(d, p)
  {
    if p + 6 > |d| {
      return None;
    }
    var numFields: nat := Read16(d, p);
    var isUnique := d[p + 2] != 0;
    var nameSize: nat := Read16(d, p + 4);
    var q: nat := p + 6 + nameSize + nameSize % 2;
    if q + 2 * numFields > |d| {
      return None;
    }
    var fields: seq<id> := [];
    for j := 0 to numFields
      invariant fields == ReadIds(d, q, j)
    {
      fields := fields + [Read16(d, q + 2 * j)];
    }
    r := Some((Index(d[p + 6..p + 6 + nameSize], isUnique, fields), q + 2 * numFields));
  }

  // ------------------------------------------------------------------ reading what was written

  lemma TypeOfCode(t: FieldType)
    ensures TypeOf(TypeCode(t)) == Some(t) && TypeCode(t) < 0x1_0000
  {
  }

  lemma TableOfCode(t: TableType)
    ensures TableOf(TableCode(t)) == Some(t)
  {
  }

  lemma FieldRead(d: seq<byte>, p: nat, f: Field, fill: byte)
    requires p % 4 == 0 && At(d, p, FieldBytes(f, fill)) && |f.name| < 0x1_0000_0000
    ensures ParseField(d, p) == Some((f, p + |FieldBytes(f, fill)|))
  {
    hide At, Num16, Num32, Read16, Read32, Align4, TypeOf, TypeCode;
    var n := |f.name|;
    AtConcat(d, p, FieldHead(f), Fill(Align4(8 + n) - (8 + n), fill));
    FieldHeadRead(d, p, f);
    AlignFrom(p, 8 + n);
    TypeOfCode(f.kind);
    assert p + |FieldBytes(f, fill)| <= |d| by { AtEnds(d, p, FieldBytes(f, fill)); }
  }

  lemma AtEnds(d: seq<byte>, p: nat, b: seq<byte>)
    requires At(d, p, b)
    ensures p + |b| <= |d| && d[p..p + |b|] == b
  {
  }

  lemma FieldHeadRead(d: seq<byte>, p: nat, f: Field)
    requires At(d, p, FieldHead(f)) && |f.name| < 0x1_0000_0000
    ensures p + 8 + |f.name| <= |d| && d[p + 8..p + 8 + |f.name|] == f.name
    ensures Read16(d, p) == TypeCode(f.kind) && (d[p + 2] != 0) == f.notNull && Read32(d, p + 4) == |f.name|
  {
    hide At, Num16, Num32, Read16, Read32;
    var code, flags, len := Num16(TypeCode(f.kind)), [Flag(f.notNull), 0], Num32(|f.name|);
    AtEnds(d, p, FieldHead(f));
    AtConcat(d, p, code, flags + (len + f.name));
    AtConcat(d, p + 2, flags, len + f.name);
    AtConcat(d, p + 4, len, f.name);
    TypeOfCode(f.kind);
    Read16Of(d, p, TypeCode(f.kind));
    Read32Of(d, p + 4, |f.name|);
    AtByte(d, p + 2, flags, 0);
    AtEnds(d, p + 8, f.name);
  }

  function GrowAll(s: Schema, fs: seq<Field>): Schema
    decreases fs
  {
    if fs == [] then s else GrowAll(Grow(s, fs[0]), fs[1..])
  }

  lemma {:induction false} FieldsRead(d: seq<byte>, p: nat, fs: seq<Field>, s: Schema, fill: byte)
    requires p % 4 == 0 && At(d, p, FieldsBytes(fs, fill)) && forall i | 0 <= i < |fs| :: |fs[i].name| <= 0xFFFF
    ensures ParseFields(d, p, |fs|, s) == Some((GrowAll(s, fs), p + |FieldsBytes(fs, fill)|))
    ensures (p + |FieldsBytes(fs, fill)|) % 4 == 0
    decreases fs
  {
    hide At, ParseField, FieldBytes, Grow, Align4;
    if fs != [] {
      var b := FieldBytes(fs[0], fill);
      AtConcat(d, p, b, FieldsBytes(fs[1..], fill));
      FieldRead(d, p, fs[0], fill);
      AlignFrom(p, 8 + |fs[0].name|);
      FieldsRead(d, p + |b|, fs[1..], Grow(s, fs[0]), fill);
    }
  }

  lemma {:induction false} GrowConcat(s: Schema, a: seq<Field>, b: seq<Field>)
    ensures GrowAll(s, a + b) == GrowAll(GrowAll(s, a), b)
    decreases a
  {
    if a == [] {
      assert a + b == b;
    } else {
      assert (a + b)[1..] == a[1..] + b;
      GrowConcat(Grow(s, a[0]), a[1..], b);
    }
  }

  lemma {:induction false} GrowFixed(s: Schema, fs: seq<Field>)
    requires forall i | 0 <= i < |fs| :: IsFixed(fs[i].kind)
    ensures GrowAll(s, fs) == s.(fixed := s.fixed + fs, nullFields := s.nullFields + NullCount(fs))
    decreases fs
  {
    if fs == [] {
      assert s.fixed + fs == s.fixed;
    } else {
      GrowFixed(Grow(s, fs[0]), fs[1..]);
      FirstCounted(fs);
      assert s.fixed + [fs[0]] + fs[1..] == s.fixed + fs;
    }
  }

  lemma {:induction false} GrowVariable(s: Schema, fs: seq<Field>)
    requires forall i | 0 <= i < |fs| :: !IsFixed(fs[i].kind)
    ensures GrowAll(s, fs) == s.(variable := s.variable + fs, nullFields := s.nullFields + NullCount(fs))
    decreases fs
  {
    if fs == [] {
      assert s.variable + fs == s.variable;
    } else {
      GrowVariable(Grow(s, fs[0]), fs[1..]);
      FirstCounted(fs);
      assert s.variable + [fs[0]] + fs[1..] == s.variable + fs;
    }
  }

  lemma FirstCounted(fs: seq<Field>)
    requires fs != []
    ensures NullCount(fs) == (if fs[0].notNull then 0 else 1) + NullCount(fs[1..])
  {
    assert fs == [fs[0]] + fs[1..] && [fs[0]][..0] == [];
    NullCountConcat([fs[0]], fs[1..]);
  }

  /** Reading all fields builds the lists of fields and the count of nullable fields again. */
  lemma FieldsRebuilt(s: Schema)
    requires SchemaOK(s)
    ensures GrowAll(Empty(s.table), Fields(s)) == s.(indexes := [])
  {
    var e := Empty(s.table);
    GrowConcat(e, s.fixed, s.variable);
    GrowFixed(e, s.fixed);
    GrowVariable(GrowAll(e, s.fixed), s.variable);
    NullCountConcat(s.fixed, s.variable);
    assert [] + s.fixed == s.fixed && [] + s.variable == s.variable;
  }

  // ------------------------------------------------------------------ indexes

  /** What a 16-bit count and length can express. */
  predicate IndexFits(x: Index) {
    |x.fields| <= 0xFFFF && |x.name| <= 0xFFFF
  }

  predicate IndexLimits(xs: seq<Index>) {
    |xs| <= 0xFFFF && forall i | 0 <= i < |xs| :: IndexFits(xs[i])
  }

  lemma {:induction false} IdsRead(d: seq<byte>, p: nat, ids: seq<id>)
    requires At(d, p, IdBytes(ids))
    ensures p + 2 * |ids| <= |d| && ReadIds(d, p, |ids|) == ids
  {
    hide At, Num16, Read16;
    IdLength(ids);
    AtEnds(d, p, IdBytes(ids));
    if ids != [] {
      var n: nat := |ids| - 1;
      var front := ids[..n];
      IdsNext(ids, n);
      assert ids[..n + 1] == ids;
      AtConcat(d, p, IdBytes(front), Num16(ids[n]));
      IdsRead(d, p, front);
      IdLength(front);
      Read16Of(d, p + 2 * n, ids[n]);
      assert front + [ids[n]] == ids;
    }
  }

  lemma IndexRead(d: seq<byte>, p: nat, x: Index)
    requires At(d, p, IndexBytes(x)) && IndexFits(x)
    ensures ParseIndex(d, p) == Some((x, p + |IndexBytes(x)|))
  {
    hide At, Num16, Read16;
    AtConcat(d, p, IndexHead(x), IdBytes(x.fields));
    IndexHeadRead(d, p, x);
    IdLength(x.fields);
    IdsRead(d, p + |IndexHead(x)|, x.fields);
  }

  /** The first numbers of an index, cut to 16 bits. */
  lemma IndexNumbers(d: seq<byte>, p: nat, x: Index)
    requires At(d, p, IndexHead(x))
    ensures p + 6 <= |d| && Read16(d, p) == |x.fields| % 0x1_0000 && Read16(d, p + 4) == |x.name| % 0x1_0000
    ensures (d[p + 2] != 0) == x.unique && At(d, p + 6, EvenName(x.name))
  {
    hide At, Num16, Read16;
    var count, flags, len := Num16(|x.fields|), [Flag(x.unique), 0], Num16(|x.name|);
    AtEnds(d, p, IndexHead(x));
    AtConcat(d, p, count, flags + (len + EvenName(x.name)));
    AtConcat(d, p + 2, flags, len + EvenName(x.name));
    AtConcat(d, p + 4, len, EvenName(x.name));
    Read16Of(d, p, |x.fields|);
    Read16Of(d, p + 4, |x.name|);
    AtByte(d, p + 2, flags, 0);
  }

  lemma IndexHeadRead(d: seq<byte>, p: nat, x: Index)
    requires At(d, p, IndexHead(x)) && IndexFits(x)
    ensures p + 6 + |x.name| <= |d| && d[p + 6..p + 6 + |x.name|] == x.name
    ensures Read16(d, p) == |x.fields| && (d[p + 2] != 0) == x.unique && Read16(d, p + 4) == |x.name|
  {
    hide At, Num16, Read16;
    IndexNumbers(d, p, x);
    if |x.name| % 2 == 1 {
      AtConcat(d, p + 6, x.name, [0]);
    }
    AtEnds(d, p + 6, x.name);
  }

  lemma EmplaceNew(xs: seq<Index>, x: Index)
    requires forall i | 0 <= i < |xs| :: xs[i].name != x.name
    ensures Emplace(xs, x) == xs + [x]
  {
  }

  lemma {:induction false} IndexesRead(d: seq<byte>, p: nat, xs: seq<Index>, before: seq<Index>)
    requires At(d, p, IndexesBytes(xs)) && DistinctIndexes(before + xs) && forall i | 0 <= i < |xs| :: IndexFits(xs[i])
    ensures ParseIndexes(d, p, |xs|, before) == Some((before + xs, p + |IndexesBytes(xs)|))
    decreases xs
  {
    hide At, ParseIndex, IndexBytes, Emplace, IndexFits;
    if xs == [] {
      assert before + xs == before;
    } else {
      var b, all := IndexBytes(xs[0]), before + xs;
      AtConcat(d, p, b, IndexesBytes(xs[1..]));
      assert IndexFits(xs[0]);
      IndexRead(d, p, xs[0]);
      assert all[|before|] == xs[0] && forall i | 0 <= i < |before| :: all[i] == before[i];
      EmplaceNew(before, xs[0]);
      assert before + [xs[0]] + xs[1..] == all;
      IndexesRead(d, p + |b|, xs[1..], before + [xs[0]]);
    }
  }

  /** Whatever is read, the indexes are few and short enough to be written again. */
  lemma {:induction false} ReadIndexesFit(d: seq<byte>, p: nat, n: nat, xs: seq<Index>)
    requires forall i | 0 <= i < |xs| :: IndexFits(xs[i])
    ensures var r := ParseIndexes(d, p, n, xs);
            r.Some? ==> |r.value.0| <= |xs| + n && forall i | 0 <= i < |r.value.0| :: IndexFits(r.value.0[i])
    decreases n
  {
    hide ParseIndex, IndexFits;
    if n > 0 && ParseIndex(d, p).Some? {
      var (x, end) := ParseIndex(d, p).value;
      assert IndexFits(x) by { ParsedFits(d, p); }
      var ys := Emplace(xs, x);
      forall i | 0 <= i < |ys| ensures IndexFits(ys[i]) {
        assert ys[i] in xs || ys[i] == x;
      }
      ReadIndexesFit(d, end, n - 1, ys);
    }
  }

  lemma ParsedFits(d: seq<byte>, p: nat)
    requires ParseIndex(d, p).Some?
    ensures IndexFits(ParseIndex(d, p).value.0)
  {
  }

  lemma {:induction false} FieldsKeepIndexes(d: seq<byte>, p: nat, n: nat, s: Schema)
    ensures var r := ParseFields(d, p, n, s); r.Some? ==> r.value.0.indexes == s.indexes
    decreases n
  {
    hide ParseField;
    if n > 0 && ParseField(d, p).Some? {
      var (f, end) := ParseField(d, p).value;
      FieldsKeepIndexes(d, end, n - 1, Grow(s, f));
    }
  }

  lemma ParsedLimits(d: seq<byte>, p: nat)
    ensures Parse(d, p).Some? ==> IndexLimits(Parse(d, p).value.0.indexes)
  {
    hide ParseFields, Read16, IndexFits;
    if Parse(d, p).Some? {
      var t := TableOf(d[p + 2]).value;
      FieldsKeepIndexes(d, p + 4, Read16(d, p), Empty(t));
      var (s, end) := ParseFields(d, p + 4, Read16(d, p), Empty(t)).value;
      ReadIndexesFit(d, end + 2, Read16(d, end), []);
    }
  }

  // ------------------------------------------------------------------ main results

  lemma HeadRead(d: seq<byte>, p: nat, s: Schema)
    requires At(d, p, SchemaHead(s)) && FieldLimits(s)
    ensures p + 4 <= |d| && Read16(d, p) == |Fields(s)| && TableOf(d[p + 2]) == Some(s.table)
  {
    hide At, Num16, Read16;
    var count, kind := Num16(|s.fixed| + |s.variable|), [TableCode(s.table), 0];
    AtEnds(d, p, SchemaHead(s));
    AtConcat(d, p, count, kind);
    Read16Of(d, p, |s.fixed| + |s.variable|);
    AtByte(d, p + 2, kind, 0);
    TableOfCode(s.table);
  }

  /** The fields of a schema are always read back, with their order and the count of nullable ones. */
  lemma FieldsRoundTrip(d: seq<byte>, p: nat, s: Schema, fill: byte)
    requires SchemaOK(s) && FieldLimits(s) && p % 4 == 0 && At(d, p, SchemaBytes(s, fill))
    ensures var q := p + 4 + |FieldsBytes(Fields(s), fill)|;
            && At(d, q, Num16(|s.indexes|) + IndexesBytes(s.indexes))
            && Parse(d, p) == ParseTail(d, q, s.(indexes := []))
  {
    hide At, Num16, Read16, ParseTail, FieldsBytes, IndexesBytes, SchemaOK, ParseFields;
    var fs, tail := FieldsBytes(Fields(s), fill), Num16(|s.indexes|) + IndexesBytes(s.indexes);
    AtConcat(d, p, SchemaHead(s), fs + tail);
    AtConcat(d, p + 4, fs, tail);
    HeadRead(d, p, s);
    FieldsRead(d, p + 4, Fields(s), Empty(s.table), fill);
    FieldsRebuilt(s);
  }

  /** For every schema that addField and addIndex have built, at every place of a message that is a multiple of four:
      reading what was written gives the schema back, and the position behind it, if and only if there are at most 65535
      indexes and each of them has at most 65535 fields and a name of at most 65535 bytes. */
  lemma RoundTripExactly(d: seq<byte>, p: nat, s: Schema, fill: byte)
    requires SchemaOK(s) && FieldLimits(s) && DistinctIndexes(s.indexes)
    requires p % 4 == 0 && At(d, p, SchemaBytes(s, fill))
    ensures Parse(d, p).Some? && Parse(d, p).value.0 == s <==> IndexLimits(s.indexes)
    ensures IndexLimits(s.indexes) ==> Parse(d, p) == Some((s, p + |SchemaBytes(s, fill)|))
  {
    hide *;
    if IndexLimits(s.indexes) {
      FieldsRoundTrip(d, p, s, fill);
      IndexesRoundTrip(d, p + 4 + |FieldsBytes(Fields(s), fill)|, s);
      SchemaLength(s, fill);
    } else {
      ParsedLimits(d, p);
    }
  }

  lemma SchemaLength(s: Schema, fill: byte)
    ensures |SchemaBytes(s, fill)| == 4 + |FieldsBytes(Fields(s), fill)| + |Num16(|s.indexes|) + IndexesBytes(s.indexes)|
  {
  }

  lemma IndexesRoundTrip(d: seq<byte>, q: nat, s: Schema)
    requires IndexLimits(s.indexes) && DistinctIndexes(s.indexes)
    requires At(d, q, Num16(|s.indexes|) + IndexesBytes(s.indexes))
    ensures ParseTail(d, q, s.(indexes := [])) == Some((s, q + |Num16(|s.indexes|) + IndexesBytes(s.indexes)|))
  {
    hide At, Num16, Read16, IndexesBytes, IndexFits, ParseIndexes;
    AtConcat(d, q, Num16(|s.indexes|), IndexesBytes(s.indexes));
    AtEnds(d, q, Num16(|s.indexes|));
    Read16Of(d, q, |s.indexes|);
    assert [] + s.indexes == s.indexes;
    IndexesRead(d, q + 2, s.indexes, []);
    assert s.(indexes := []).(indexes := s.indexes) == s;
  }

  /** A schema without indexes always survives, whatever surrounds it in the message. */
  lemma RoundTrip(before: seq<byte>, s: Schema, after: seq<byte>, fill: byte)
    requires SchemaOK(s) && FieldLimits(s) && s.indexes == [] && |before| % 4 == 0
    ensures Parse(before + SchemaBytes(s, fill) + after, |before|) == Some((s, |before + SchemaBytes(s, fill)|))
  {
    hide Parse, SchemaBytes, SchemaOK, FieldLimits;
    var d, b := before + SchemaBytes(s, fill) + after, SchemaBytes(s, fill);
    assert d[|before|..|before| + |b|] == b;
    RoundTripExactly(d, |before|, s, fill);
  }

  /** The failing case: the number of fields of an index is cut to 16 bits, so that an index on 65536 fields is read as an
      index on none. */
  lemma LongIndexIsLost(ids: seq<id>, fill: byte)
    requires |ids| == 0x1_0000
    ensures var s := Schema(Transactional, [], [], 0, [Index([], false, ids)]);
            Parse(SchemaBytes(s, fill), 0) == Some((s.(indexes := [Index([], false, [])]), 12))
  {
    hide At, Parse, ParseTail, SchemaHead, Num16, IndexesBytes;
    var x := Index([], false, ids);
    var s := Schema(Transactional, [], [], 0, [x]);
    var d := SchemaBytes(s, fill);
    assert NullCount(Fields(s)) == 0;
    AtSelf(d);
    FieldsRoundTrip(d, 0, s, fill);
    assert FieldsBytes(Fields(s), fill) == [];
    LongIndexRead(d, s, x);
  }

  lemma LongIndexRead(d: seq<byte>, s: Schema, x: Index)
    requires |x.fields| == 0x1_0000 && x.name == [] && !x.unique
    requires At(d, 4, Num16(1) + IndexesBytes([x]))
    ensures ParseTail(d, 4, s.(indexes := [])) == Some((s.(indexes := [Index([], false, [])]), 12))
  {
    hide At, Num16, Read16, IndexHead, ParseIndexes;
    assert [x][1..] == [] && IndexBytes(x) + [] == IndexBytes(x);
    assert IndexesBytes([x]) == IndexBytes(x);
    AtConcat(d, 4, Num16(1), IndexBytes(x));
    AtConcat(d, 6, IndexHead(x), IdBytes(x.fields));
    AtEnds(d, 6, IndexHead(x));
    Read16Of(d, 4, 1);
    IndexNumbers(d, 6, x);
    ShortIndex(d);
  }

  lemma AtSelf(d: seq<byte>)
    ensures At(d, 0, d)
  {
    assert d[0..|d|] == d;
  }

  lemma ShortIndex(d: seq<byte>)
    requires 12 <= |d| && Read16(d, 4) == 1 && Read16(d, 6) == 0 && Read16(d, 10) == 0 && d[8] == 0
    ensures ParseIndexes(d, 6, 1, []) == Some(([Index([], false, [])], 12))
  {
    hide Read16, ParseIndexes, Emplace;
    var x := Index([], false, []);
    assert d[12..12] == [];
    OneIndex(d, 6, x, 12);
  }

  lemma OneIndex(d: seq<byte>, p: nat, x: Index, end: nat)
    requires ParseIndex(d, p) == Some((x, end))
    ensures ParseIndexes(d, p, 1, []) == Some(([x], end))
  {
    EmplaceNew([], x);
    assert [] + [x] == [x];
    assert ParseIndexes(d, end, 0, Emplace([], x)) == Some(([x], end));
  }
}
