/**
 The column scan (LLVMColumnMapScanBuilder, deltamain/colstore/LLVMColumnMapScan.cpp): the syntax tree of a batch is
 compiled into loops over the elements of a page.  Every field has a loop over groups of elements that fit a vector
 register and a loop over the rest; the result array holds one value per slot and element.
 */
module ColumnScan {
  import opened Common
  import opened ScanCompiler

  // ------------------------------------------------------------------ programs over the elements of a page

  /** The elements a loop covers: those in full groups of `lanes`, or those left over. */
  datatype Region = Vector(lanes: nat) | Scalar(lanes: nat)

  datatype Loop = Loop(region: Region, body: seq<Instr>)

  predicate RegionOK(r: Region) {
    r.lanes > 0
  }

  /** The number of elements in full groups: the largest multiple of `lanes` up to `count`, which for a power of two is
      the masked count. */
  function Grouped(count: nat, lanes: nat): nat
    requires lanes > 0
  {
    if count < lanes then 0 else lanes + Grouped(count - lanes, lanes)
  }

  /** The first element a loop covers, the elements there are from it on, and the number of elements of an iteration. */
  datatype Bounds = Bounds(from: nat, count: nat, step: nat)

  function BoundsOf(r: Region, count: nat): (b: Bounds)
    requires RegionOK(r)
    ensures b.step > 0 && b.from + b.count <= count
  {
    GroupedOK(count, r.lanes);
    if r.Vector? then Bounds(0, count, r.lanes) else Bounds(Grouped(count, r.lanes), count - Grouped(count, r.lanes), 1)
  }

  predicate Covers(r: Region, count: nat, e: nat)
    requires RegionOK(r)
  {
    var b := BoundsOf(r, count);
    b.from <= e < b.from + Grouped(b.count, b.step)
  }

  lemma {:induction false} GroupedOK(count: nat, lanes: nat)
    requires lanes > 0
    ensures Grouped(count, lanes) <= count < Grouped(count, lanes) + lanes
  {
    if count >= lanes {
      GroupedOK(count - lanes, lanes);
    }
  }

  predicate ProgramOK(program: seq<Loop>) {
    forall i | 0 <= i < |program| :: RegionOK(program[i].region)
  }

  /** What a program does to element `e` of `count` elements. */
  function ElementCode(program: seq<Loop>, count: nat, e: nat): seq<Instr>
    requires ProgramOK(program)
  {
    if program == [] then []
    else
      var l := program[|program| - 1];
      ElementCode(program[..|program| - 1], count, e) + if Covers(l.region, count, e) then l.body else []
  }

  lemma ElementAppend(program: seq<Loop>, l: Loop, count: nat, e: nat)
    requires ProgramOK(program) && RegionOK(l.region)
    ensures ProgramOK(program + [l])
    ensures ElementCode(program + [l], count, e)
            == ElementCode(program, count, e) + if Covers(l.region, count, e) then l.body else []
  {
    assert (program + [l])[..|program|] == program;
  }

  /** A loop over the groups and one over the rest cover every element once. */
  lemma ElementBoth(program: seq<Loop>, lanes: nat, body: seq<Instr>, rest: seq<Instr>, count: nat, e: nat)
    requires ProgramOK(program) && lanes > 0 && e < count
    ensures ProgramOK(program + [Loop(Vector(lanes), body), Loop(Scalar(lanes), rest)])
    ensures ElementCode(program + [Loop(Vector(lanes), body), Loop(Scalar(lanes), rest)], count, e)
            == ElementCode(program, count, e) + if e < Grouped(count, lanes) then body else rest
  {
    var v, s := Loop(Vector(lanes), body), Loop(Scalar(lanes), rest);
    GroupedOK(count, lanes);
    GroupedOK(count - Grouped(count, lanes), 1);
    assert program + [v, s] == (program + [v]) + [s];
    ElementAppend(program, v, count, e);
    ElementAppend(program + [v], s, count, e);
  }

  lemma ElementAll(program: seq<Loop>, body: seq<Instr>, count: nat, e: nat)
    requires ProgramOK(program) && e < count
    ensures ProgramOK(program + [Loop(Vector(1), body)])
    ensures ElementCode(program + [Loop(Vector(1), body)], count, e) == ElementCode(program, count, e) + body
  {
    GroupedOK(count, 1);
    ElementAppend(program, Loop(Vector(1), body), count, e);
  }

  // ------------------------------------------------------------------ the flat result array

  /** An instruction executed for one element. */
  datatype Event = Event(e: nat, ins: Instr)

  function Lanes(ins: Instr, first: nat, n: nat): seq<Event> {
    if n == 0 then [] else Lanes(ins, first, n - 1) + [Event(first + n - 1, ins)]
  }

  /** One iteration of a loop: every instruction works on all lanes. */
  function Iteration(body: seq<Instr>, first: nat, lanes: nat): seq<Event> {
    if body == [] then [] else Iteration(body[..|body| - 1], first, lanes) + Lanes(body[|body| - 1], first, lanes)
  }

  function Iterations(body: seq<Instr>, first: nat, lanes: nat, count: nat): seq<Event>
    requires lanes > 0
    decreases count
  {
    if count < lanes then [] else Iteration(body, first, lanes) + Iterations(body, first + lanes, lanes, count - lanes)
  }

  function LoopEvents(l: Loop, start: nat, count: nat): seq<Event>
    requires RegionOK(l.region)
  {
    var b := BoundsOf(l.region, count);
    Iterations(l.body, start + b.from, b.step, b.count)
  }

  /** Everything a program does to `count` elements from `start` on, in the order of its loops. */
  function Events(program: seq<Loop>, start: nat, count: nat): seq<Event>
    requires ProgramOK(program)
  {
    if program == [] then []
    else Events(program[..|program| - 1], start, count) + LoopEvents(program[|program| - 1], start, count)
  }

  /** What happens to element `e`. */
  function Only(events: seq<Event>, e: nat): seq<Instr> {
    if events == [] then []
    else
      var last := events[|events| - 1];
      Only(events[..|events| - 1], e) + if last.e == e then [last.ins] else []
  }

  lemma {:induction false} OnlyConcat(a: seq<Event>, b: seq<Event>, e: nat)
    ensures Only(a + b, e) == Only(a, e) + Only(b, e)
  {
    if b == [] {
      assert a + b == a;
    } else {
      assert (a + b)[..|a + b| - 1] == a + b[..|b| - 1];
      OnlyConcat(a, b[..|b| - 1], e);
    }
  }

  lemma {:induction false} OnlyLanes(ins: Instr, first: nat, n: nat, e: nat)
    ensures Only(Lanes(ins, first, n), e) == if first <= e < first + n then [ins] else []
  {
    if n > 0 {
      var last := Event(first + n - 1, ins);
      OnlyLanes(ins, first, n - 1, e);
      OnlyConcat(Lanes(ins, first, n - 1), [last], e);
      assert [last][..0] == [];
    }
  }

  lemma {:induction false} OnlyIteration(body: seq<Instr>, first: nat, lanes: nat, e: nat)
    ensures Only(Iteration(body, first, lanes), e) == if first <= e < first + lanes then body else []
  {
    if body != [] {
      var t, ins := body[..|body| - 1], body[|body| - 1];
      OnlyIteration(t, first, lanes, e);
      OnlyLanes(ins, first, lanes, e);
      OnlyConcat(Iteration(t, first, lanes), Lanes(ins, first, lanes), e);
      assert t + [ins] == body;
    }
  }

  lemma {:induction false} OnlyIterations(body: seq<Instr>, first: nat, lanes: nat, count: nat, e: nat)
    requires lanes > 0
    ensures Only(Iterations(body, first, lanes, count), e)
            == if first <= e < first + Grouped(count, lanes) then body else []
    decreases count
  {
    if count >= lanes {
      OnlyIterations(body, first + lanes, lanes, count - lanes, e);
      OnlyIteration(body, first, lanes, e);
      OnlyConcat(Iteration(body, first, lanes), Iterations(body, first + lanes, lanes, count - lanes), e);
      assert body + [] == body && [] + body == body;
    }
  }

  lemma OnlyLoop(l: Loop, start: nat, count: nat, e: nat)
    requires RegionOK(l.region)
    ensures Only(LoopEvents(l, start, count), start + e) == if Covers(l.region, count, e) then l.body else []
  {
    OnlyBounds(l.body, BoundsOf(l.region, count), start, e);
  }

  lemma OnlyBounds(body: seq<Instr>, b: Bounds, start: nat, e: nat)
    requires b.step > 0
    ensures Only(Iterations(body, start + b.from, b.step, b.count), start + e)
            == if b.from <= e < b.from + Grouped(b.count, b.step) then body else []
  {
    hide Only, Iterations, Grouped;
    OnlyIterations(body, start + b.from, b.step, b.count, start + e);
  }

  /** Restricted to one element, the run of a program is its element code. */
  lemma {:induction false} OnlyEvents(program: seq<Loop>, start: nat, count: nat, e: nat)
    requires ProgramOK(program) && e < count
    ensures Only(Events(program, start, count), start + e) == ElementCode(program, count, e)
  {
    if program != [] {
      var t, l := program[..|program| - 1], program[|program| - 1];
      assert RegionOK(l.region);
      OnlyEvents(t, start, count, e);
      OnlyLoop(l, start, count, e);
      OnlyConcat(Events(t, start, count), LoopEvents(l, start, count), start + e);
    }
  }

  /** The place of a slot of an element in the result array. */
  function Address(slot: nat, size: nat, e: nat): nat {
    slot * size + e
  }

  lemma AddressOrder(s: nat, t: nat, size: nat, e: nat, f: nat)
    requires e < size && s < t
    ensures Address(s, size, e) < Address(t, size, f)
  {
    assert t * size >= (s + 1) * size == s * size + size;
  }

  lemma AddressUnique(s: nat, t: nat, size: nat, e: nat, f: nat)
    requires e < size && f < size && Address(s, size, e) == Address(t, size, f)
    ensures s == t && e == f
  {
    if s < t {
      AddressOrder(s, t, size, e, f);
    } else if t < s {
      AddressOrder(t, s, size, f, e);
    }
  }

  lemma AddressBound(s: nat, slots: nat, size: nat, e: nat)
    requires e < size && s < slots
    ensures Address(s, size, e) < slots * size
  {
    assert slots * size >= (s + 1) * size == s * size + size;
  }

  /** The slots of element `e`. */
  function Slots(flat: seq<bool>, slots: nat, size: nat, e: nat): seq<bool> {
    seq(slots, s requires 0 <= s => Address(s, size, e) < |flat| && flat[Address(s, size, e)])
  }

  function ExecuteAt(ev: Event, row: Row, flat: seq<bool>, slots: nat, size: nat): seq<bool> {
    var a := Address(ev.ins.slot, size, ev.e);
    if ev.ins.slot < slots && a < |flat| then flat[a := Eval(ev.ins.value, row, Slots(flat, slots, size, ev.e))] else flat
  }

  predicate EventsIn(events: seq<Event>, n: nat) {
    forall i | 0 <= i < |events| :: events[i].e < n
  }

  function RunPage(events: seq<Event>, rows: seq<Row>, flat: seq<bool>, slots: nat, size: nat): seq<bool>
    requires EventsIn(events, |rows|)
  {
    if events == [] then flat
    else
      var last := events[|events| - 1];
      ExecuteAt(last, rows[last.e], RunPage(events[..|events| - 1], rows, flat, slots, size), slots, size)
  }

  lemma ExecuteOne(ev: Event, row: Row, flat: seq<bool>, slots: nat, size: nat, e: nat)
    requires |flat| == slots * size && ev.e < size && e < size
    ensures |ExecuteAt(ev, row, flat, slots, size)| == |flat|
    ensures Slots(ExecuteAt(ev, row, flat, slots, size), slots, size, e)
            == if ev.e == e then Execute(ev.ins, row, Slots(flat, slots, size, e)) else Slots(flat, slots, size, e)
  {
    var out, mem := ExecuteAt(ev, row, flat, slots, size), Slots(flat, slots, size, e);
    var mem' := if ev.e == e then Execute(ev.ins, row, mem) else mem;
    if ev.ins.slot < slots {
      AddressBound(ev.ins.slot, slots, size, ev.e);
    }
    forall s | 0 <= s < slots ensures Slots(out, slots, size, e)[s] == mem'[s] {
      AddressBound(s, slots, size, e);
      if ev.ins.slot < slots && Address(s, size, e) == Address(ev.ins.slot, size, ev.e) {
        AddressUnique(s, ev.ins.slot, size, e, ev.e);
      }
    }
  }

  /** Elements do not disturb each other: on a flat array the slots of an element end as its own instructions leave them,
      in whatever order the instructions of other elements come between. */
  lemma {:induction false} ElementsAreIndependent(events: seq<Event>, rows: seq<Row>, flat: seq<bool>, slots: nat,
                                                  size: nat, e: nat)
    requires |flat| == slots * size && |rows| == size && e < size
    requires EventsIn(events, |rows|)
    ensures |RunPage(events, rows, flat, slots, size)| == |flat|
    ensures Slots(RunPage(events, rows, flat, slots, size), slots, size, e)
            == Run(Only(events, e), rows[e], Slots(flat, slots, size, e))
  {
    if events != [] {
      var t, last := events[..|events| - 1], events[|events| - 1];
      ElementsAreIndependent(t, rows, flat, slots, size, e);
      ExecuteOne(last, rows[last.e], RunPage(t, rows, flat, slots, size), slots, size, e);
      if last.e == e {
        RunAppend(Only(t, e), last.ins, rows[e], Slots(flat, slots, size, e));
      } else {
        assert Only(t, e) + [] == Only(t, e);
      }
    }
  }

  lemma {:induction false} LanesBound(ins: Instr, first: nat, n: nat, end: nat)
    requires first + n <= end
    ensures EventsIn(Lanes(ins, first, n), end)
  {
    if n > 0 {
      LanesBound(ins, first, n - 1, end);
    }
  }

  lemma {:induction false} IterationBound(body: seq<Instr>, first: nat, lanes: nat, end: nat)
    requires first + lanes <= end
    ensures EventsIn(Iteration(body, first, lanes), end)
  {
    if body != [] {
      IterationBound(body[..|body| - 1], first, lanes, end);
      LanesBound(body[|body| - 1], first, lanes, end);
    }
  }

  lemma {:induction false} IterationsBound(body: seq<Instr>, first: nat, lanes: nat, count: nat, end: nat)
    requires lanes > 0 && first + count <= end
    ensures EventsIn(Iterations(body, first, lanes, count), end)
    decreases count
  {
    if count >= lanes {
      IterationBound(body, first, lanes, end);
      IterationsBound(body, first + lanes, lanes, count - lanes, end);
    }
  }

  lemma {:induction false} EventsBound(program: seq<Loop>, start: nat, count: nat)
    requires ProgramOK(program)
    ensures EventsIn(Events(program, start, count), start + count)
  {
    if program != [] {
      var l := program[|program| - 1];
      assert RegionOK(l.region);
      EventsBound(program[..|program| - 1], start, count);
      var b := BoundsOf(l.region, count);
      IterationsBound(l.body, start + b.from, b.step, b.count, start + count);
    }
  }

  // ------------------------------------------------------------------ the builder

  /** The bits of a vector register, and the size in bytes of the fixed-size fields, which come first. */
  datatype Layout = Layout(width: nat, size: nat -> nat, variable: nat)

  /** The fixed-size fields have two, four or eight bytes and the largest fits a register. */
  ghost predicate LayoutOK(layout: Layout) {
    layout.width >= 64 && forall id: nat | id < layout.variable :: layout.size(id) in {2, 4, 8}
  }

  /** The number of elements of a fixed-size field that fit a register. */
  function LanesOf(layout: Layout, id: nat): int {
    var bits := layout.size(id) * 8;
    if bits == 0 then 0 else layout.width / bits
  }

  lemma LanesOK(layout: Layout, id: nat)
    requires LayoutOK(layout) && id < layout.variable
    ensures LanesOf(layout, id) > 0
    ensures LanesOf(layout, id) == 1 <==> layout.width < 128 && layout.size(id) == 8
  {
  }

  /** Registers for which there is a program (BuildColumnScan): more than one element of every field fits. */
  ghost predicate Wide(layout: Layout) {
    LayoutOK(layout) && layout.width >= 128
  }

  // ------------------------------------------------------------------ the code of the fields

  /** The flags of the vector or the scalar loops after the first `f` fields: a field without a vector loop leaves no
      trace in the flags of the vector loops. */
  ghost function Flags(ast: Ast, layout: Layout, f: nat, vector: bool): (flags: seq<bool>)
    requires f <= |ast.fields|
    ensures |flags| == |ast.props|
  {
    if f == 0 then seq(|ast.props|, _ => false)
    else
      var flags, field := Flags(ast, layout, f - 1, vector), ast.fields[f - 1];
      if vector && LanesOf(layout, field.id) == 1 then flags else Code(ast, field.preds, flags).1
  }

  /** The element belongs to a full group of a field with a vector loop. */
  predicate InGroups(layout: Layout, id: nat, count: nat, e: nat) {
    var lanes := LanesOf(layout, id);
    id < layout.variable && lanes > 1 && e < Grouped(count, lanes)
  }

  /** What the loops of the first `f` fields do to an element. */
  ghost function FieldsCode(ast: Ast, layout: Layout, f: nat, count: nat, e: nat): seq<Instr>
    requires f <= |ast.fields|
  {
    if f == 0 then []
    else
      var field := ast.fields[f - 1];
      FieldsCode(ast, layout, f - 1, count, e)
      + Code(ast, field.preds, Flags(ast, layout, f - 1, InGroups(layout, field.id, count, e))).0
  }

  /** The program does the code of the first `f` fields and then `tail` to every element. */
  ghost predicate Does(program: seq<Loop>, ast: Ast, layout: Layout, f: nat, tail: seq<Instr>)
    requires f <= |ast.fields|
  {
    ProgramOK(program)
    && forall count: nat, e: nat | e < count :: ElementCode(program, count, e) == FieldsCode(ast, layout, f, count, e) + tail
  }

  lemma DoesBoth(program: seq<Loop>, ast: Ast, layout: Layout, f: nat, tail: seq<Instr>, lanes: nat, body: seq<Instr>)
    requires f <= |ast.fields| && Does(program, ast, layout, f, tail) && lanes > 0
    ensures Does(program + [Loop(Vector(lanes), body), Loop(Scalar(lanes), body)], ast, layout, f, tail + body)
  {
    hide FieldsCode, ElementCode;
    var program' := program + [Loop(Vector(lanes), body), Loop(Scalar(lanes), body)];
    assert ProgramOK(program') by { ElementBoth(program, lanes, body, body, 1, 0); }
    forall count: nat, e: nat | e < count
      ensures ElementCode(program', count, e) == FieldsCode(ast, layout, f, count, e) + (tail + body)
    {
      ElementBoth(program, lanes, body, body, count, e);
      assert FieldsCode(ast, layout, f, count, e) + tail + body == FieldsCode(ast, layout, f, count, e) + (tail + body);
    }
  }

  lemma DoesOne(program: seq<Loop>, ast: Ast, layout: Layout, f: nat, body: seq<Instr>)
    requires f < |ast.fields| && Does(program, ast, layout, f, [])
    requires ast.fields[f].id >= layout.variable || LanesOf(layout, ast.fields[f].id) == 1
    requires body == Code(ast, ast.fields[f].preds, Flags(ast, layout, f, false)).0
    ensures Does(program + [Loop(Vector(1), body)], ast, layout, f + 1, [])
  {
    hide ElementCode, Code, Flags;
    var program' := program + [Loop(Vector(1), body)];
    assert ProgramOK(program') by { ElementAll(program, body, 1, 0); }
    forall count: nat, e: nat | e < count
      ensures ElementCode(program', count, e) == FieldsCode(ast, layout, f + 1, count, e) + []
    {
      ElementAll(program, body, count, e);
      assert FieldsCode(ast, layout, f, count, e) + [] == FieldsCode(ast, layout, f, count, e);
    }
  }

  lemma DoesField(program: seq<Loop>, ast: Ast, layout: Layout, f: nat, body: seq<Instr>, rest: seq<Instr>)
    requires f < |ast.fields| && Does(program, ast, layout, f, [])
    requires ast.fields[f].id < layout.variable && LanesOf(layout, ast.fields[f].id) > 1
    requires body == Code(ast, ast.fields[f].preds, Flags(ast, layout, f, true)).0
    requires rest == Code(ast, ast.fields[f].preds, Flags(ast, layout, f, false)).0
    ensures var lanes := LanesOf(layout, ast.fields[f].id);
            Does(program + [Loop(Vector(lanes), body), Loop(Scalar(lanes), rest)], ast, layout, f + 1, [])
  {
    hide ElementCode, Code, Flags, LanesOf;
    var lanes := LanesOf(layout, ast.fields[f].id);
    var program' := program + [Loop(Vector(lanes), body), Loop(Scalar(lanes), rest)];
    assert ProgramOK(program') by { ElementBoth(program, lanes, body, rest, 1, 0); }
    forall count: nat, e: nat | e < count
      ensures ElementCode(program', count, e) == FieldsCode(ast, layout, f + 1, count, e) + []
    {
      ElementBoth(program, lanes, body, rest, count, e);
      assert FieldsCode(ast, layout, f, count, e) + [] == FieldsCode(ast, layout, f, count, e);
    }
  }

  /** The filters of the first `n` queries, with what the predicates left in their slots. */
  function Filters(ast: Ast, generated: seq<bool>, n: nat): seq<Instr>
    requires n <= |ast.queries| && n <= |generated|
  {
    if n == 0 then []
    else
      var filter := Filter(ast.queries[n - 1]);
      Filters(ast, generated, n - 1) + [Store(n - 1, if generated[n - 1] then And(Load(n - 1), filter) else filter)]
  }

  /** Merges the conjunct slot `src` into the slot `dest`. */
  function Merge(src: nat, dest: nat): Instr {
    Store(dest, And(Load(dest), Load(src)))
  }

  /** The conjuncts `from` to `k` of a group that were written, merged into `dest`. */
  function GroupMerges(generated: seq<bool>, offset: nat, from: nat, k: nat, dest: nat): seq<Instr>
    requires offset + k <= |generated|
  {
    if k <= from then []
    else
      GroupMerges(generated, offset, from, k - 1, dest)
      + if generated[offset + k - 1] then [Merge(offset + k - 1, dest)] else []
  }

  /** The first slot whose group has not been merged when the merges reach query `i`. */
  function MergedOffset(ast: Ast, i: nat): nat
    requires i <= |ast.queries|
  {
    if i == 0 then |ast.queries|
    else
      var m, q := MergedOffset(ast, i - 1), ast.queries[i - 1];
      if q.numConjunct != 0 && m == q.offset then m + q.numConjunct else m
  }

  function QueryMerges(ast: Ast, generated: seq<bool>, i: nat): seq<Instr>
    requires SlotsExist(ast) && |generated| == |ast.props| && i < |ast.queries|
  {
    var q := ast.queries[i];
    if q.numConjunct == 0 then []
    else
      (if MergedOffset(ast, i) == q.offset
       then GroupMerges(generated, q.offset, if q.shared then 1 else 0, q.numConjunct, if q.shared then q.offset else i)
       else [])
      + if q.shared then [Merge(q.offset, i)] else []
  }

  function Merges(ast: Ast, generated: seq<bool>, n: nat): seq<Instr>
    requires SlotsExist(ast) && |generated| == |ast.props| && n <= |ast.queries|
  {
    if n == 0 then [] else Merges(ast, generated, n - 1) + QueryMerges(ast, generated, n - 1)
  }

  /** What the whole program does to an element. */
  ghost function ColumnCode(ast: Ast, layout: Layout, count: nat, e: nat): seq<Instr>
    requires SlotsExist(ast)
  {
    var f, n, generated := |ast.fields|, |ast.queries|, Flags(ast, layout, |ast.fields|, false);
    FieldsCode(ast, layout, f, count, e) + (Filters(ast, generated, n) + Merges(ast, generated, n))
  }

  /** LLVMColumnMapScanBuilder::buildScan.  There is a program exactly for registers of at least 128 bits. */
  method BuildColumnScan(ast: Ast, layout: Layout) returns (program: Option<seq<Loop>>)
    requires SlotsExist(ast) && Countable(ast, Flat(ast.fields)) && FieldsOK(ast.fields) && LayoutOK(layout)
    ensures program.Some? <==> Wide(layout)
    ensures program.Some? ==> Computes(program.value, ast, layout)
  {
    hide Countable, LayoutOK, Filters, Merges, ElementCode, FieldsCode;
    var loops, generated := BuildFields(ast, layout);
    var filters := BuildFilters(ast, generated);
    assert layout.width >= 64 by { WideEnough(layout); }
    program := BuildQuery(ast, layout, loops, filters);
    if program.Some? {
      var merges := BuildMerges(ast, generated);
      loops := BuildMergeLoops(ast, layout, program.value, merges, filters);
      program := Some(loops);
    }
  }

  /** Every element gets the specified code. */
  ghost predicate Computes(program: seq<Loop>, ast: Ast, layout: Layout)
    requires SlotsExist(ast)
  {
    ProgramOK(program)
    && forall count: nat, e: nat | e < count :: ElementCode(program, count, e) == ColumnCode(ast, layout, count, e)
  }

  /** The pointers to the versions and keys of the elements with which a pass of the query evaluation starts. */
  datatype Pointers = Null | Pointers

  /** buildQuery: the pass over the full groups leaves the pointers for the pass over the rest.  Other than for fields and
      merges nothing skips the first pass when a group is a single element. */
  method BuildQuery(ghost ast: Ast, layout: Layout, program0: seq<Loop>, filters: seq<Instr>)
    returns (program: Option<seq<Loop>>)
    requires Does(program0, ast, layout, |ast.fields|, []) && layout.width >= 64
    ensures program.Some? <==> layout.width >= 128
    ensures program.Some? ==> Does(program.value, ast, layout, |ast.fields|, filters)
  {
    hide Does;
    var lanes := layout.width / 64;
    var first, pointers := BuildQueryEvaluation(Pointers, Vector(lanes), lanes, filters);
    var second, _ := BuildQueryEvaluation(pointers, Scalar(lanes), 1, filters);
    if second.None? {
      return None;
    }
    DoesBoth(program0, ast, layout, |ast.fields|, [], lanes, filters);
    assert [] + filters == filters;
    program := Some(program0 + [first.value, second.value]);
  }

  /** buildQueryEvaluation: a loop that starts from the pointers, none from null pointers; behind a pass over single
      elements there are no pointers. */
  method BuildQueryEvaluation(pointers: Pointers, region: Region, lanes: nat, filters: seq<Instr>)
    returns (loop: Option<Loop>, next: Pointers)
    ensures loop == if pointers == Null then None else Some(Loop(region, filters))
    ensures next == Null <==> lanes == 1
  {
    loop := if pointers == Null then None else Some(Loop(region, filters));
    next := if lanes != 1 then Pointers else Null;
  }

  lemma WideEnough(layout: Layout)
    requires LayoutOK(layout)
    ensures layout.width >= 64
  {
  }

  /** buildConjunctMerge for every merge. */
  method BuildMergeLoops(ast: Ast, layout: Layout, program0: seq<Loop>, merges: seq<Instr>, ghost code: seq<Instr>)
    returns (program: seq<Loop>)
    requires Does(program0, ast, layout, |ast.fields|, code) && layout.width >= 64
    ensures Does(program, ast, layout, |ast.fields|, code + merges)
  {
    hide Does;
    program := program0;
    var lanes := layout.width / 8;
    assert code + merges[..0] == code;
    for k := 0 to |merges|
      invariant Does(program, ast, layout, |ast.fields|, code + merges[..k])
    {
      DoesBoth(program, ast, layout, |ast.fields|, code + merges[..k], lanes, [merges[k]]);
      assert (code + merges[..k]) + [merges[k]] == code + merges[..k + 1];
      program := program + [Loop(Vector(lanes), [merges[k]]), Loop(Scalar(lanes), [merges[k]])];
    }
    assert merges[..|merges|] == merges;
  }

  /** The loops of the fields, with separate flags for the vector and the scalar loops. */
  method BuildFields(ast: Ast, layout: Layout) returns (program: seq<Loop>, scalar: seq<bool>)
    requires Countable(ast, Flat(ast.fields)) && FieldsOK(ast.fields) && LayoutOK(layout)
    ensures Does(program, ast, layout, |ast.fields|, []) && scalar == Flags(ast, layout, |ast.fields|, false)
  {
    hide Countable, LayoutOK, Does, Code;
    var vector := seq(|ast.props|, _ => false);
    scalar := seq(|ast.props|, _ => false);
    program := [];
    var f := 0;
    assert Does(program, ast, layout, 0, []) by { DoesNothing(ast, layout); }
    while f < |ast.fields| && ast.fields[f].id < layout.variable
      invariant f <= |ast.fields| && Does(program, ast, layout, f, [])
      invariant vector == Flags(ast, layout, f, true) && scalar == Flags(ast, layout, f, false)
    {
      program, vector, scalar := BuildFixedField(ast, layout, program, f, vector, scalar);
      f := f + 1;
    }
    while f < |ast.fields|
      invariant f <= |ast.fields| && Does(program, ast, layout, f, [])
      invariant scalar == Flags(ast, layout, f, false)
      invariant f < |ast.fields| ==> ast.fields[f].id >= layout.variable
    {
      FlatField(ast.fields, f);
      var body;
      body, scalar := BuildField(ast, ast.fields[f], scalar);
      DoesOne(program, ast, layout, f, body);
      program := program + [Loop(Vector(1), body)];
      f := f + 1;
    }
  }

  lemma DoesNothing(ast: Ast, layout: Layout)
    ensures Does([], ast, layout, 0, [])
  {
  }

  lemma FlatField(fields: seq<Field>, f: nat)
    requires f < |fields|
    ensures forall p | p in fields[f].preds :: p in Flat(fields)
  {
    FlatStep(fields, f);
    FlatPrefix(fields, f + 1);
  }

  /** A fixed-size field: a loop over full groups, if more than one element fits a register, and a loop over the rest;
      otherwise the scalar loop covers everything. */
  method BuildFixedField(ast: Ast, layout: Layout, program0: seq<Loop>, f: nat, vector0: seq<bool>, scalar0: seq<bool>)
    returns (program: seq<Loop>, vector: seq<bool>, scalar: seq<bool>)
    requires Countable(ast, Flat(ast.fields)) && LayoutOK(layout)
    requires f < |ast.fields| && ast.fields[f].id < layout.variable && Does(program0, ast, layout, f, [])
    requires vector0 == Flags(ast, layout, f, true) && scalar0 == Flags(ast, layout, f, false)
    ensures Does(program, ast, layout, f + 1, [])
    ensures vector == Flags(ast, layout, f + 1, true) && scalar == Flags(ast, layout, f + 1, false)
  {
    hide Countable, Does, Code;
    FlatField(ast.fields, f);
    LanesOK(layout, ast.fields[f].id);
    var lanes := layout.width / (layout.size(ast.fields[f].id) * 8);
    var rest;
    program, vector := program0, vector0;
    if lanes != 1 {
      var body;
      body, vector := BuildField(ast, ast.fields[f], vector);
      rest, scalar := BuildField(ast, ast.fields[f], scalar0);
      DoesField(program0, ast, layout, f, body, rest);
      program := program0 + [Loop(Vector(lanes), body), Loop(Scalar(lanes), rest)];
    } else {
      rest, scalar := BuildField(ast, ast.fields[f], scalar0);
      DoesOne(program0, ast, layout, f, rest);
      program := program0 + [Loop(Vector(1), rest)];
    }
  }

  /** The body of the loops of buildQueryEvaluation. */
  method BuildFilters(ast: Ast, generated: seq<bool>) returns (code: seq<Instr>)
    requires |ast.queries| <= |generated|
    ensures code == Filters(ast, generated, |ast.queries|)
  {
    code := [];
    for i := 0 to |ast.queries|
      invariant code == Filters(ast, generated, i)
    {
      var q := ast.queries[i];
      var res := Window(q.baseVersion, q.version);
      if q.modulo != 0 {
        res := And(res, Partition(q.shift, q.modulo, q.number));
      }
      if generated[i] {
        res := And(Load(i), res);
      }
      code := code + [Store(i, res)];
    }
  }

  /** buildResult: which slots are merged into which. */
  method BuildMerges(ast: Ast, generated: seq<bool>) returns (code: seq<Instr>)
    requires SlotsExist(ast) && |generated| == |ast.props|
    ensures code == Merges(ast, generated, |ast.queries|)
  {
    code := [];
    var mergedOffset := |ast.queries|;
    for i := 0 to |ast.queries|
      invariant mergedOffset == MergedOffset(ast, i) && code == Merges(ast, generated, i)
    {
      var q := ast.queries[i];
      if q.numConjunct != 0 {
        if mergedOffset == q.offset {
          var group := BuildGroupMerges(generated, q, if q.shared then q.offset else i);
          code := code + group;
          mergedOffset := mergedOffset + q.numConjunct;
        }
        if q.shared {
          code := code + [Merge(q.offset, i)];
        }
      }
      assert code == Merges(ast, generated, i) + QueryMerges(ast, generated, i);
    }
  }

  /** The loop over the conjuncts of a group. */
  method BuildGroupMerges(generated: seq<bool>, q: QueryAst, dest: nat) returns (code: seq<Instr>)
    requires q.offset + q.numConjunct <= |generated| && q.numConjunct > 0
    ensures code == GroupMerges(generated, q.offset, if q.shared then 1 else 0, q.numConjunct, dest)
  {
    code := [];
    var from := if q.shared then 1 else 0;
    for k := from to q.numConjunct
      invariant code == GroupMerges(generated, q.offset, from, k, dest)
    {
      if generated[q.offset + k] {
        code := code + [Merge(q.offset + k, dest)];
      }
    }
  }

  // ------------------------------------------------------------------ what the filters and merges compute

  predicate Filtered(ast: Ast, generated: seq<bool>, mem: seq<bool>, row: Row, i: nat)
    requires i < |ast.queries| <= |mem| == |generated|
  {
    Admits(ast.queries[i], row) && (generated[i] ==> mem[i])
  }

  lemma FilterValue(ast: Ast, generated: seq<bool>, i: nat, row: Row, mem: seq<bool>, now: seq<bool>)
    requires i < |ast.queries| <= |mem| == |generated| == |now| && now[i] == mem[i]
    ensures var filter := Filter(ast.queries[i]);
            Eval(if generated[i] then And(Load(i), filter) else filter, row, now) == Filtered(ast, generated, mem, row, i)
  {
    FilterAdmits(ast.queries[i], row, now);
    assert Eval(Load(i), row, now) == now[i];
  }

  lemma {:induction false} FiltersCorrect(ast: Ast, generated: seq<bool>, n: nat, row: Row, mem: seq<bool>)
    requires n <= |ast.queries| <= |mem| == |generated|
    ensures var out := Run(Filters(ast, generated, n), row, mem);
            && (forall i: nat | i < n :: out[i] == Filtered(ast, generated, mem, row, i))
            && (forall s: nat | n <= s < |mem| :: out[s] == mem[s])
  {
    hide Filter, Filtered;
    if n > 0 {
      var i := n - 1;
      FiltersCorrect(ast, generated, i, row, mem);
      var filter := Filter(ast.queries[i]);
      var ins := Store(i, if generated[i] then And(Load(i), filter) else filter);
      RunAppend(Filters(ast, generated, i), ins, row, mem);
      FilterValue(ast, generated, i, row, mem, Run(Filters(ast, generated, i), row, mem));
    }
  }

  /** Every slot of the range that was written is true. */
  predicate AllTrue(generated: seq<bool>, mem: seq<bool>, from: nat, to: nat)
    requires to <= |mem| == |generated|
  {
    forall s: nat | from <= s < to :: generated[s] ==> mem[s]
  }

  lemma MergeOne(src: nat, dest: nat, row: Row, mem: seq<bool>)
    requires src < |mem| && dest < |mem|
    ensures Execute(Merge(src, dest), row, mem) == mem[dest := mem[dest] && mem[src]]
  {
    assert Eval(Load(src), row, mem) == mem[src] && Eval(Load(dest), row, mem) == mem[dest];
  }

  lemma {:induction false} GroupMergesCorrect(generated: seq<bool>, offset: nat, from: nat, k: nat, dest: nat,
                                              row: Row, mem: seq<bool>)
    requires offset + k <= |generated| == |mem| && dest < |mem| && !(offset + from <= dest < offset + k)
    ensures Run(GroupMerges(generated, offset, from, k, dest), row, mem)
            == mem[dest := mem[dest] && AllTrue(generated, mem, offset + from, offset + k)]
  {
    if k > from {
      GroupMergesCorrect(generated, offset, from, k - 1, dest, row, mem);
      var t := GroupMerges(generated, offset, from, k - 1, dest);
      var before, src := Run(t, row, mem), offset + k - 1;
      if generated[src] {
        RunAppend(t, Merge(src, dest), row, mem);
        MergeOne(src, dest, row, before);
      } else {
        assert t + [] == t;
      }
      assert AllTrue(generated, mem, offset + from, offset + k)
          == (AllTrue(generated, mem, offset + from, src) && (generated[src] ==> mem[src]));
    } else {
      assert mem[dest := mem[dest]] == mem;
    }
  }

  lemma {:induction false} StartGrows(n: nat, qs: seq<Query>, owner: seq<nat>, o: nat, j: nat)
    requires o < j <= |qs| == |owner| && owner[o] == o
    ensures Start(n, qs, owner, o) + qs[o].numConjunct <= Start(n, qs, owner, j)
  {
    if o < j - 1 {
      StartGrows(n, qs, owner, o, j - 1);
    }
  }

  /** Exactly the queries that own their conjuncts find their group not yet merged. */
  lemma {:induction false} MergedOffsetIsStart(queries: seq<Query>, owner: seq<nat>, ast: Ast, i: nat)
    requires AstFor(queries, owner, ast) && i <= |queries|
    ensures MergedOffset(ast, i) == Start(|queries|, queries, owner, i)
    ensures i < |queries| && queries[i].numConjunct > 0 ==>
              (MergedOffset(ast, i) == ast.queries[i].offset <==> owner[i] == i)
  {
    var n := |queries|;
    if i > 0 {
      MergedOffsetIsStart(queries, owner, ast, i - 1);
      assert QueryOK(n, queries, owner, ast.queries, ast.props, Members(ast.fields), i - 1);
    }
    if i < n {
      assert QueryOK(n, queries, owner, ast.queries, ast.props, Members(ast.fields), i);
      if owner[i] < i {
        StartGrows(n, queries, owner, owner[i], i);
      }
    }
  }

  /** The first slot of a shared group is written. */
  lemma FirstSlotWritten(queries: seq<Query>, owner: seq<nat>, ast: Ast, generated: seq<bool>, mem: seq<bool>,
                         row: Row, i: nat)
    requires AstFor(queries, owner, ast) && i < |queries| && queries[i].numConjunct > 0
    requires Countable(ast, Flat(ast.fields)) && SlotsOK(ast, generated, mem, row)
    requires owner[i] < |ast.queries| && ast.queries[owner[i]].shared && ast.queries[i].offset < |generated|
    ensures generated[ast.queries[i].offset]
  {
    var off, ps, flat := ast.queries[i].offset, Members(ast.fields), Flat(ast.fields);
    QueryGroup(queries, owner, ast, i);
    ConjunctSlot(queries, owner, ast, i, 0, row);
    FlatMembers(ast.fields);
    var p :| p in ps && p.conjunct == off;
    assert p in flat && Target(ast, p.conjunct) == off;
    assert SlotOK(ast, flat, generated, mem, row, off);
  }

  /** The slots after the first `i` queries have been merged: `before` holds them before the filters. */
  ghost predicate MergedSoFar(queries: seq<Query>, owner: seq<nat>, ast: Ast, generated: seq<bool>, before: seq<bool>,
                              row: Row, i: nat, now: seq<bool>)
  {
    && |queries| == |owner| == |ast.queries| && SlotsExist(ast) && |generated| == |before| == |now| == |ast.props|
    && (forall j: nat | j < |queries| :: ResultSoFar(ast, generated, before, row, i, j, now))
    && (forall o: nat | o < |queries| && owner[o] == o :: GroupSoFar(ast, generated, before, i, o, now))
  }

  ghost predicate ResultSoFar(ast: Ast, generated: seq<bool>, before: seq<bool>, row: Row, i: nat, j: nat,
                              now: seq<bool>)
    requires SlotsExist(ast) && j < |ast.queries| && |generated| == |before| == |now| == |ast.props|
  {
    now[j] == if j < i then Admits(ast.queries[j], row) && Merged(ast, generated, before, j)
              else Filtered(ast, generated, before, row, j)
  }

  ghost predicate GroupSoFar(ast: Ast, generated: seq<bool>, before: seq<bool>, i: nat, o: nat, now: seq<bool>)
    requires SlotsExist(ast) && o < |ast.queries| && |generated| == |before| == |now| == |ast.props|
  {
    var off, num := ast.queries[o].offset, ast.queries[o].numConjunct;
    forall s: nat | off <= s < off + num ::
      now[s] == if o < i && ast.queries[o].shared && s == off then AllTrue(generated, before, off, off + num)
                else before[s]
  }

  lemma SameGroup(ast: Ast, generated: seq<bool>, before: seq<bool>, i: nat, o: nat, now: seq<bool>, now': seq<bool>)
    requires SlotsExist(ast) && o < |ast.queries| && |generated| == |before| == |now| == |now'| == |ast.props|
    requires GroupSoFar(ast, generated, before, i, o, now) && o != i
    requires forall s: nat | ast.queries[o].offset <= s < ast.queries[o].offset + ast.queries[o].numConjunct ::
               now'[s] == now[s]
    ensures GroupSoFar(ast, generated, before, i + 1, o, now')
  {
  }

  lemma SameResult(ast: Ast, generated: seq<bool>, before: seq<bool>, row: Row, i: nat, j: nat, now: seq<bool>,
                   now': seq<bool>)
    requires SlotsExist(ast) && j < |ast.queries| && |generated| == |before| == |now| == |now'| == |ast.props|
    requires ResultSoFar(ast, generated, before, row, i, j, now)
    requires now'[j] == if j == i then now[i] && Merged(ast, generated, before, i) else now[j]
    ensures ResultSoFar(ast, generated, before, row, i + 1, j, now')
  {
  }

  lemma OwnGroups(queries: seq<Query>, owner: seq<nat>, ast: Ast, o: nat, i: nat)
    requires AstFor(queries, owner, ast) && o < |queries| && i < |queries| && owner[o] == o && owner[i] == i && o != i
    requires queries[i].numConjunct > 0
    ensures var q := ast.queries[o]; !(q.offset <= ast.queries[i].offset < q.offset + q.numConjunct)
  {
    QueryGroup(queries, owner, ast, o);
    QueryGroup(queries, owner, ast, i);
    assert ast.props[ast.queries[i].offset].queryIndex == i;
  }

  /** The merges of one query in closed form. */
  lemma QueryMergesResult(queries: seq<Query>, owner: seq<nat>, ast: Ast, generated: seq<bool>, row: Row, i: nat,
                          now: seq<bool>)
    requires AstFor(queries, owner, ast) && SlotsExist(ast) && i < |queries| && |generated| == |now| == |ast.props|
    requires queries[i].numConjunct > 0 && ast.queries[i].numConjunct == queries[i].numConjunct
    ensures var q := ast.queries[i];
            var out := Run(QueryMerges(ast, generated, i), row, now);
            if owner[i] != i then q.shared ==> out == now[i := now[i] && now[q.offset]]
            else if !q.shared then
              out == now[i := now[i] && AllTrue(generated, now, q.offset, q.offset + q.numConjunct)]
            else
              var a := now[q.offset] && AllTrue(generated, now, q.offset + 1, q.offset + q.numConjunct);
              out == now[q.offset := a][i := now[i] && a]
  {
    var q := ast.queries[i];
    MergedOffsetIsStart(queries, owner, ast, i);
    if owner[i] != i {
      if q.shared {
        assert QueryMerges(ast, generated, i) == [] + [Merge(q.offset, i)];
        RunAppend([], Merge(q.offset, i), row, now);
        MergeOne(q.offset, i, row, now);
      }
    } else if !q.shared {
      var g := GroupMerges(generated, q.offset, 0, q.numConjunct, i);
      assert QueryMerges(ast, generated, i) == g + [] == g;
      GroupMergesCorrect(generated, q.offset, 0, q.numConjunct, i, row, now);
    } else {
      var g := GroupMerges(generated, q.offset, 1, q.numConjunct, q.offset);
      GroupMergesCorrect(generated, q.offset, 1, q.numConjunct, q.offset, row, now);
      RunAppend(g, Merge(q.offset, i), row, now);
      MergeOne(q.offset, i, row, Run(g, row, now));
    }
  }

  /** One query's merges complete its result and keep the groups of the others. */
  lemma MergesStep(queries: seq<Query>, owner: seq<nat>, ast: Ast, generated: seq<bool>, mem: seq<bool>, row: Row,
                   i: nat, now: seq<bool>)
    requires AstFor(queries, owner, ast) && SlotsExist(ast) && i < |queries|
    requires Countable(ast, Flat(ast.fields)) && SlotsOK(ast, generated, mem, row)
    requires |now| == |mem| && MergedSoFar(queries, owner, ast, generated, mem, row, i, now)
    ensures MergedSoFar(queries, owner, ast, generated, mem, row, i + 1,
                        Run(QueryMerges(ast, generated, i), row, now))
  {
    hide Countable, SlotsOK, Start, WellFormed, Predicates, Members;
    var q := ast.queries[i];
    var off, num := q.offset, q.numConjunct;
    var now' := Run(QueryMerges(ast, generated, i), row, now);
    assert QueryOK(|queries|, queries, owner, ast.queries, ast.props, Members(ast.fields), i);
    QueryGroup(queries, owner, ast, i);
    var o := owner[i];
    assert QueryOK(|queries|, queries, owner, ast.queries, ast.props, Members(ast.fields), o);
    assert GroupSoFar(ast, generated, mem, i, o, now);
    if num > 0 {
      QueryMergesResult(queries, owner, ast, generated, row, i, now);
      if ast.queries[o].shared {
        FirstSlotWritten(queries, owner, ast, generated, mem, row, i);
      }
      MergedValue(ast, generated, mem, i, o, now, now');
    }
    forall o': nat | o' < |queries| && owner[o'] == o' ensures GroupSoFar(ast, generated, mem, i + 1, o', now') {
      assert GroupSoFar(ast, generated, mem, i, o', now);
      if o' != i {
        if num > 0 && o == i {
          OwnGroups(queries, owner, ast, o', i);
        }
        SameGroup(ast, generated, mem, i, o', now, now');
      }
    }
    var next := i + 1;
    forall j: nat | j < |queries| ensures ResultSoFar(ast, generated, mem, row, next, j, now') {
      SameResult(ast, generated, mem, row, i, j, now, now');
    }
  }

  /** The result slot gets the conjunction of the group, and a shared group keeps it in its first slot. */
  lemma MergedValue(ast: Ast, generated: seq<bool>, mem: seq<bool>, i: nat, o: nat, now: seq<bool>, now': seq<bool>)
    requires SlotsExist(ast) && o <= i < |ast.queries| && |generated| == |mem| == |now| == |now'| == |ast.props|
    requires ast.queries[i].numConjunct > 0 && ast.queries[o].offset == ast.queries[i].offset
    requires ast.queries[o].numConjunct == ast.queries[i].numConjunct
    requires o != i ==> ast.queries[i].shared && ast.queries[o].shared
    requires GroupSoFar(ast, generated, mem, i, o, now)
    requires ast.queries[o].shared ==> generated[ast.queries[i].offset]
    requires var q := ast.queries[i];
             if o != i then now' == now[i := now[i] && now[q.offset]]
             else if !q.shared then
               now' == now[i := now[i] && AllTrue(generated, now, q.offset, q.offset + q.numConjunct)]
             else
               var a := now[q.offset] && AllTrue(generated, now, q.offset + 1, q.offset + q.numConjunct);
               now' == now[q.offset := a][i := now[i] && a]
    ensures var q := ast.queries[i];
            now'[i] == (now[i] && AllTrue(generated, mem, q.offset, q.offset + q.numConjunct))
    ensures o == i ==> GroupSoFar(ast, generated, mem, i + 1, i, now')
  {
    var q := ast.queries[i];
    var off, to := q.offset, q.offset + q.numConjunct;
    if o == i {
      assert forall s: nat | off <= s < to :: now[s] == mem[s];
      assert AllTrue(generated, now, off, to) == AllTrue(generated, mem, off, to);
      assert AllTrue(generated, now, off + 1, to) == AllTrue(generated, mem, off + 1, to);
      if q.shared {
        assert AllTrue(generated, mem, off, to) == (mem[off] && AllTrue(generated, mem, off + 1, to));
      }
    } else {
      assert now[off] == AllTrue(generated, mem, off, to);
    }
  }

  lemma {:induction false} MergesCorrect(queries: seq<Query>, owner: seq<nat>, ast: Ast, generated: seq<bool>,
                                         mem: seq<bool>, row: Row, i: nat, filtered: seq<bool>)
    requires AstFor(queries, owner, ast) && SlotsExist(ast) && i <= |queries| && |queries| == |ast.queries|
    requires Countable(ast, Flat(ast.fields)) && SlotsOK(ast, generated, mem, row) && |filtered| == |mem|
    requires MergedSoFar(queries, owner, ast, generated, mem, row, 0, filtered)
    ensures MergedSoFar(queries, owner, ast, generated, mem, row, i, Run(Merges(ast, generated, i), row, filtered))
  {
    if i > 0 {
      var k: nat := i - 1;
      MergesCorrect(queries, owner, ast, generated, mem, row, k, filtered);
      assert MergedSoFar(queries, owner, ast, generated, mem, row, k, Run(Merges(ast, generated, k), row, filtered));
      MergesNext(queries, owner, ast, generated, mem, row, k, filtered);
      assert k + 1 == i;
    } else {
      assert Merges(ast, generated, i) == [];
      assert Run([], row, filtered) == filtered;
    }
  }

  lemma MergesNext(queries: seq<Query>, owner: seq<nat>, ast: Ast, generated: seq<bool>, mem: seq<bool>, row: Row,
                   i: nat, filtered: seq<bool>)
    requires AstFor(queries, owner, ast) && SlotsExist(ast) && i < |queries| && |queries| == |ast.queries|
    requires Countable(ast, Flat(ast.fields)) && SlotsOK(ast, generated, mem, row) && |filtered| == |mem|
    requires MergedSoFar(queries, owner, ast, generated, mem, row, i, Run(Merges(ast, generated, i), row, filtered))
    ensures MergedSoFar(queries, owner, ast, generated, mem, row, i + 1,
                        Run(Merges(ast, generated, i + 1), row, filtered))
  {
    var t, u := Merges(ast, generated, i), QueryMerges(ast, generated, i);
    assert Merges(ast, generated, i + 1) == t + u;
    RunConcat(t, u, row, filtered);
    MergesStep(queries, owner, ast, generated, mem, row, i, Run(t, row, filtered));
  }

  lemma NothingMerged(queries: seq<Query>, owner: seq<nat>, ast: Ast, generated: seq<bool>, mem: seq<bool>, row: Row,
                      filtered: seq<bool>)
    requires |queries| == |owner| == |ast.queries| && SlotsExist(ast)
    requires |generated| == |mem| == |filtered| == |ast.props|
    requires forall i: nat | i < |queries| :: filtered[i] == Filtered(ast, generated, mem, row, i)
    requires forall s: nat | |queries| <= s < |mem| :: filtered[s] == mem[s]
    ensures MergedSoFar(queries, owner, ast, generated, mem, row, 0, filtered)
  {
  }

  // ------------------------------------------------------------------ main results

  /** For every batch of well-formed queries and every element, whatever the result array held before: the code stores
      for query `i` whether it accepts the element, exactly as the row program does. */
  lemma ElementCorrect(queries: seq<Query>, owner: seq<nat>, ast: Ast, code: seq<Instr>, row: Row, mem: seq<bool>,
                       i: nat)
    requires AstFor(queries, owner, ast) && SlotsExist(ast) && Countable(ast, Flat(ast.fields))
    requires |queries| == |ast.queries| && |mem| == |ast.props| && i < |queries|
    requires var (conjuncts, generated) := Emitted(ast, Flat(ast.fields));
             code == conjuncts + Filters(ast, generated, |queries|) + Merges(ast, generated, |queries|)
    ensures Run(code, row, mem)[i] <==> Accepts(queries[i], row)
  {
    var n := |queries|;
    var (conjuncts, generated) := Emitted(ast, Flat(ast.fields));
    var filters, merges := Filters(ast, generated, n), Merges(ast, generated, n);
    var mid := Run(conjuncts, row, mem);
    var filtered := Run(filters, row, mid);
    RunConcat(conjuncts + filters, merges, row, mem);
    RunConcat(conjuncts, filters, row, mem);
    ConjunctsCorrect(ast, row, mem);
    FiltersCorrect(ast, generated, n, row, mid);
    NothingMerged(queries, owner, ast, generated, mid, row, filtered);
    MergesCorrect(queries, owner, ast, generated, mid, row, n, filtered);
    assert ResultSoFar(ast, generated, mid, row, n, i, Run(merges, row, filtered));
    ResultMeans(queries, owner, ast, generated, mid, row, i);
  }

  /** Before a fixed-size field stand only such fields, and all of them have vector loops: both kinds of flags are the
      same. */
  lemma {:induction false} SameFlags(ast: Ast, layout: Layout, f: nat, k: nat)
    requires FieldsOK(ast.fields) && Wide(layout) && f < |ast.fields| && k <= f && ast.fields[f].id < layout.variable
    ensures Flags(ast, layout, k, true) == Flags(ast, layout, k, false)
  {
    if k > 0 {
      assert ast.fields[k - 1].id < ast.fields[f].id;
      LanesOK(layout, ast.fields[k - 1].id);
      SameFlags(ast, layout, f, k - 1);
    }
  }

  /** Every element gets the code of the row program, from the vector loops as from the scalar ones. */
  lemma {:induction false} SameFields(ast: Ast, layout: Layout, f: nat, count: nat, e: nat)
    requires FieldsOK(ast.fields) && Wide(layout) && Countable(ast, Flat(ast.fields)) && f <= |ast.fields|
    ensures Known(ast, Flat(ast.fields[..f]))
    ensures (FieldsCode(ast, layout, f, count, e), Flags(ast, layout, f, false)) == Emitted(ast, Flat(ast.fields[..f]))
  {
    hide Countable, Wide, FieldsOK;
    if f > 0 {
      SameFields(ast, layout, f - 1, count, e);
      NextField(ast, f - 1);
      if InGroups(layout, ast.fields[f - 1].id, count, e) {
        SameFlags(ast, layout, f - 1, f - 1);
      }
    }
  }

  lemma SameCode(ast: Ast, layout: Layout, count: nat, e: nat)
    requires SlotsExist(ast) && FieldsOK(ast.fields) && Wide(layout) && Countable(ast, Flat(ast.fields))
    ensures var (conjuncts, generated) := Emitted(ast, Flat(ast.fields));
            var n := |ast.queries|;
            ColumnCode(ast, layout, count, e) == conjuncts + Filters(ast, generated, n) + Merges(ast, generated, n)
  {
    hide Countable, Wide, FieldsOK, Filters, Merges;
    SameFields(ast, layout, |ast.fields|, count, e);
    assert ast.fields[..|ast.fields|] == ast.fields;
  }

  /** The program does the right thing for every element of a page. */
  ghost predicate Compiled(queries: seq<Query>, owner: seq<nat>, ast: Ast, layout: Layout, program: seq<Loop>) {
    && AstFor(queries, owner, ast) && SlotsExist(ast) && Countable(ast, Flat(ast.fields)) && |queries| == |ast.queries|
    && Computes(program, ast, layout)
  }

  method Compile(queries: seq<Query>, layout: Layout) returns (ast: Ast, program: Option<seq<Loop>>, ghost owner: seq<nat>)
    requires (forall q | q in queries :: WellFormed(q)) && LayoutOK(layout)
    ensures program.Some? <==> Wide(layout)
    ensures program.Some? ==> Compiled(queries, owner, ast, layout, program.value) && |queries| <= |ast.props|
  {
    ast, owner := BuildAst(queries);
    TreeSlots(queries, owner, ast);
    program := BuildColumnScan(ast, layout);
  }

  /** On the flat array of a page the place of query `i` and element `e` of the range ends with the query's answer. */
  lemma PageCorrect(queries: seq<Query>, owner: seq<nat>, ast: Ast, layout: Layout, program: seq<Loop>,
                    rows: seq<Row>, start: nat, end: nat, flat: seq<bool>, e: nat, i: nat)
    requires Compiled(queries, owner, ast, layout, program) && i < |queries| <= |ast.props| && start <= e < end <= |rows|
    requires Wide(layout) && |flat| == |ast.props| * |rows|
    requires EventsIn(Events(program, start, end - start), |rows|)
    ensures var out := RunPage(Events(program, start, end - start), rows, flat, |ast.props|, |rows|);
            Address(i, |rows|, e) < |out| && (out[Address(i, |rows|, e)] <==> Accepts(queries[i], rows[e]))
  {
    hide Wide, ElementCode, TreeOK, Countable, Filters, Merges, EventsIn, Accepts;
    var slots, size := |ast.props|, |rows|;
    var count: nat, k: nat := end - start, e - start;
    SameCode(ast, layout, count, k);
    var code := ColumnCode(ast, layout, count, k);
    ElementOnPage(program, code, rows, start, end, flat, slots, e);
    ElementCorrect(queries, owner, ast, code, rows[e], Slots(flat, slots, size, e), i);
    SlotPlace(RunPage(Events(program, start, end - start), rows, flat, slots, size), slots, size, i, e);
  }

  lemma SlotPlace(flat: seq<bool>, slots: nat, size: nat, i: nat, e: nat)
    requires |flat| == slots * size && i < slots && e < size
    ensures Address(i, size, e) < |flat| && flat[Address(i, size, e)] == Slots(flat, slots, size, e)[i]
  {
    AddressBound(i, slots, size, e);
  }

  lemma ElementOnPage(program: seq<Loop>, code: seq<Instr>, rows: seq<Row>, start: nat, end: nat, flat: seq<bool>,
                      slots: nat, e: nat)
    requires ProgramOK(program) && start <= e < end <= |rows| && |flat| == slots * |rows|
    requires ElementCode(program, end - start, e - start) == code
    requires EventsIn(Events(program, start, end - start), |rows|)
    ensures var out := RunPage(Events(program, start, end - start), rows, flat, slots, |rows|);
            && |out| == |flat|
            && Slots(out, slots, |rows|, e) == Run(code, rows[e], Slots(flat, slots, |rows|, e))
  {
    var count: nat, k: nat := end - start, e - start;
    OnlyEvents(program, start, count, k);
    ElementsAreIndependent(Events(program, start, count), rows, flat, slots, |rows|, e);
  }

  /** The column scan of a page, from the queries to the flat result array: for every element of the range and every
      query the array says whether the query accepts the element.  `stale` is what the array held before.  There are no
      results exactly where there is no program. */
  method ScanPage(queries: seq<Query>, layout: Layout, rows: seq<Row>, start: nat, end: nat, stale: nat -> bool)
    returns (results: Option<seq<bool>>)
    requires (forall q | q in queries :: WellFormed(q)) && LayoutOK(layout) && start <= end <= |rows|
    ensures results.Some? <==> layout.width >= 128
    ensures results.Some? ==> forall e, i | start <= e < end && 0 <= i < |queries| ::
              i * |rows| + e < |results.value|
              && (results.value[i * |rows| + e] <==> Accepts(queries[i], rows[e]))
  {
    hide LayoutOK, WellFormed, Accepts, Address, Events, RunPage;
    var ast, program, owner := Compile(queries, layout);
    if program.None? {
      return None;
    }
    var slots, size := |ast.props|, |rows|;
    var flat := seq(slots * size, k requires 0 <= k => stale(k));
    EventsBound(program.value, start, end - start);
    results := Some(RunPage(Events(program.value, start, end - start), rows, flat, slots, size));
    AllPageCorrect(queries, owner, ast, layout, program.value, rows, start, end, flat);
    PlainAddresses(queries, rows, start, end, results.value);
  }

  /** The answers lie query by query. */
  lemma PlainAddresses(queries: seq<Query>, rows: seq<Row>, start: nat, end: nat, out: seq<bool>)
    requires start <= end <= |rows|
    requires forall e, i | start <= e < end && 0 <= i < |queries| ::
               Address(i, |rows|, e) < |out| && (out[Address(i, |rows|, e)] <==> Accepts(queries[i], rows[e]))
    ensures forall e, i | start <= e < end && 0 <= i < |queries| ::
              i * |rows| + e < |out| && (out[i * |rows| + e] <==> Accepts(queries[i], rows[e]))
  {
    hide Accepts;
    forall e, i | start <= e < end && 0 <= i < |queries|
      ensures i * |rows| + e < |out| && (out[i * |rows| + e] <==> Accepts(queries[i], rows[e]))
    {
      assert Address(i, |rows|, e) == i * |rows| + e;
    }
  }

  lemma AllPageCorrect(queries: seq<Query>, owner: seq<nat>, ast: Ast, layout: Layout, program: seq<Loop>,
                       rows: seq<Row>, start: nat, end: nat, flat: seq<bool>)
    requires Compiled(queries, owner, ast, layout, program) && |queries| <= |ast.props| && start <= end <= |rows|
    requires Wide(layout) && |flat| == |ast.props| * |rows|
    requires EventsIn(Events(program, start, end - start), |rows|)
    ensures var out := RunPage(Events(program, start, end - start), rows, flat, |ast.props|, |rows|);
            forall e, i | start <= e < end && 0 <= i < |queries| ::
              Address(i, |rows|, e) < |out| && (out[Address(i, |rows|, e)] <==> Accepts(queries[i], rows[e]))
  {
    hide Wide, Accepts, EventsIn;
    var out := RunPage(Events(program, start, end - start), rows, flat, |ast.props|, |rows|);
    forall e, i | start <= e < end && 0 <= i < |queries|
      ensures Address(i, |rows|, e) < |out| && (out[Address(i, |rows|, e)] <==> Accepts(queries[i], rows[e]))
    {
      PageCorrect(queries, owner, ast, layout, program, rows, start, end, flat, e, i);
    }
  }
}
