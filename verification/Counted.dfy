/**
 The profiler's own counters. What the reader shows for root, nodes and frames
 are the numbers and sizes of the allocations and frees, modulo 2^64.
 */
module Counted {
  import opened Groups
  import opened Counters
  import opened CallTree
  import opened CallGraph
  import opened Accounting
  import opened AccountingRuns
  import opened Conservation
  import opened Attribution
  import opened Writer
  import opened Reader
  import opened Session
  import opened EndToEnd
  import opened Exact

  function Signed(x: nat): (r: i64)
    requires x < TWO64
  {
    if x >= TWO63 then (x - TWO64) as i64 else x as i64
  }

  function AllocCost(info: Info): (r: Summary) {
    Summary(Signed(info.size), 1, info.offset as i64, 1, info.size as u64)
  }

  function FreeCost(info: Info): (r: Summary) {
    Summary(WrapSigned(-(Signed(info.size) as int)), -1, -(info.offset as i64), 0, 0)
  }

  function SummaryCosts(): (c: Costs<Summary>) {
    Costs(AllocCost, FreeCost)
  }

  // Freeing what was allocated, on whatever thread, leaves only the running totals
  lemma FreeUndoesAlloc(info: Info)
    ensures Add(AllocCost(info), FreeCost(info)) == Summary(0, 0, 0, 1, info.size as u64)
  {
    SignedLaws(Signed(info.size), 0, 0);
  }

  // ----- counting operations

  datatype Measure = Number | Bytes | Overhead

  function Size(m: Measure, info: Info): (r: nat) {
    match m
    case Number => 1
    case Bytes => info.size
    case Overhead => info.offset
  }

  ghost function AllocatedBy(m: Measure, op: Op, keep: nat -> bool): (r: nat) {
    if op.Alloc? && keep(op.info.traceId) then Size(m, op.info) else 0
  }

  ghost function FreedBy(m: Measure, op: Op, keep: nat -> bool): (r: nat) {
    if op.Free? && keep(op.info.traceId) then Size(m, op.info) else 0
  }

  // How much was allocated on the chosen traces
  ghost function Allocated(m: Measure, ops: seq<Op>, keep: nat -> bool): (r: nat) {
    if ops == [] then 0
    else Allocated(m, ops[..|ops| - 1], keep) + AllocatedBy(m, ops[|ops| - 1], keep)
  }

  // And how much was freed
  ghost function Freed(m: Measure, ops: seq<Op>, keep: nat -> bool): (r: nat) {
    if ops == [] then 0
    else Freed(m, ops[..|ops| - 1], keep) + FreedBy(m, ops[|ops| - 1], keep)
  }

  ghost function Live(m: Measure, ops: seq<Op>, keep: nat -> bool): (r: int) {
    Allocated(m, ops, keep) - Freed(m, ops, keep)
  }

  // Equal modulo 2^64
  ghost predicate Same(a: int, b: int) {
    (a - b) % TWO64 == 0
  }

  // The fields of a summary, modulo 2^64
  ghost predicate Shows(x: Summary, active: int, size: int, overhead: int, totalCount: int, totalBytes: int) {
    && Same(x.active as int, active) && Same(x.size as int, size) && Same(x.overhead as int, overhead)
    && Same(x.totalCount as int, totalCount) && Same(x.totalBytes as int, totalBytes)
  }

  // The counters say how much is live and how much was ever allocated
  ghost predicate Counts(x: Summary, ops: seq<Op>, keep: nat -> bool) {
    Shows(x, Live(Number, ops, keep), Live(Bytes, ops, keep), Live(Overhead, ops, keep),
          Allocated(Number, ops, keep), Allocated(Bytes, ops, keep))
  }

  lemma SameSigned(a: i64, b: i64, x: int, y: int)
    requires Same(a as int, x) && Same(b as int, y)
    ensures Same(AddSigned(a, b) as int, x + y)
  {
  }

  lemma SameUnsigned(a: u64, b: u64, x: int, y: int)
    requires Same(a as int, x) && Same(b as int, y)
    ensures Same(AddUnsigned(a, b) as int, x + y)
  {
  }

  lemma CostShows(op: Op, keep: nat -> bool)
    ensures Shows(KeptCost(Wrapping(), SummaryCosts(), op, keep),
                  AllocatedBy(Number, op, keep) - FreedBy(Number, op, keep),
                  AllocatedBy(Bytes, op, keep) - FreedBy(Bytes, op, keep),
                  AllocatedBy(Overhead, op, keep) - FreedBy(Overhead, op, keep),
                  AllocatedBy(Number, op, keep), AllocatedBy(Bytes, op, keep))
  {
  }

  lemma AddShows(x: Summary, y: Summary, a: int, b: int, c: int, d: int, e: int,
                 a': int, b': int, c': int, d': int, e': int)
    requires Shows(x, a, b, c, d, e) && Shows(y, a', b', c', d', e')
    ensures Shows(Add(x, y), a + a', b + b', c + c', d + d', e + e')
  {
    SameSigned(x.active, y.active, a, a');
    SameSigned(x.size, y.size, b, b');
    SameSigned(x.overhead, y.overhead, c, c');
    SameUnsigned(x.totalCount, y.totalCount, d, d');
    SameUnsigned(x.totalBytes, y.totalBytes, e, e');
  }

  lemma CountsPush(x: Summary, y: Summary, init: seq<Op>, op: Op, ops: seq<Op>, keep: nat -> bool)
    requires ops == init + [op] && Counts(x, init, keep) && y == KeptCost(Wrapping(), SummaryCosts(), op, keep)
    ensures Counts(Add(x, y), ops, keep)
  {
    assert ops[..|ops| - 1] == init;
    CostShows(op, keep);
    AddShows(x, y, Live(Number, init, keep), Live(Bytes, init, keep), Live(Overhead, init, keep),
             Allocated(Number, init, keep), Allocated(Bytes, init, keep),
             AllocatedBy(Number, op, keep) - FreedBy(Number, op, keep),
             AllocatedBy(Bytes, op, keep) - FreedBy(Bytes, op, keep),
             AllocatedBy(Overhead, op, keep) - FreedBy(Overhead, op, keep),
             AllocatedBy(Number, op, keep), AllocatedBy(Bytes, op, keep));
  }

  // The summed costs of operations count them
  lemma {:induction false} SumCounts(ops: seq<Op>, keep: nat -> bool)
    ensures Counts(Sum(Wrapping(), OpCosts(Wrapping(), SummaryCosts(), ops, keep)), ops, keep)
  {
    if ops != [] {
      var n := |ops| - 1;
      var init, op := ops[..n], ops[n];
      var costs, last := OpCosts(Wrapping(), SummaryCosts(), init, keep),
        KeptCost(Wrapping(), SummaryCosts(), op, keep);
      SumCounts(init, keep);
      assert OpCosts(Wrapping(), SummaryCosts(), ops, keep) == costs + [last];
      SumPush(Wrapping(), costs, last);
      CountsPush(Sum(Wrapping(), costs), last, init, op, ops, keep);
    }
  }

  // Numbers that fit in 64 bits are shown as they are
  lemma CountsExactly(x: Summary, ops: seq<Op>, keep: nat -> bool)
    requires Counts(x, ops, keep)
    ensures -TWO63 <= Live(Number, ops, keep) < TWO63 <==> x.active as int == Live(Number, ops, keep)
    ensures -TWO63 <= Live(Bytes, ops, keep) < TWO63 <==> x.size as int == Live(Bytes, ops, keep)
    ensures -TWO63 <= Live(Overhead, ops, keep) < TWO63 <==> x.overhead as int == Live(Overhead, ops, keep)
    ensures Allocated(Number, ops, keep) < TWO64 <==> x.totalCount as int == Allocated(Number, ops, keep)
    ensures Allocated(Bytes, ops, keep) < TWO64 <==> x.totalBytes as int == Allocated(Bytes, ops, keep)
  {
  }

  // ----- what the reader shows

  // A node counts the operations on the traces with its path, and on those with a path that extends it
  ghost predicate NodeCounts(nodes: seq<GraphNode<Summary>>, edges: map<Edge, nat>, sym: nat -> seq<Frame>,
                             find: Finder, ops: seq<Op>, i: nat)
    requires Shaped(nodes, edges) && i < |nodes|
  {
    var agg, path := nodes[i].agg, Trace(nodes, edges, i);
    && Counts(CallTree.Own(Wrapping(), agg), ops, Falling(sym, find, At(path)))
    && Counts(agg.total, ops, Falling(sym, find, Under(path)))
  }

  // A frame counts the operations on the traces that it ends as new, and on those that contain it
  ghost predicate FrameCounts(frames: map<Frame, Aggregate<Summary>>, sym: nat -> seq<Frame>, find: Finder,
                              ops: seq<Op>, f: Frame) {
    && Counts(FrameOwn(Wrapping(), frames, f), ops, Falling(sym, find, EndingIn(f)))
    && Counts(FrameTotal(Wrapping(), frames, f), ops, Falling(sym, find, Through(f)))
  }

  ghost predicate AllCounted(reader: Processor<Summary>, find: Finder, ops: seq<Op>)
    reads reader, reader.graph
  {
    && Shaped(reader.graph.nodes, reader.graph.edges)
    && (forall i :: 0 <= i < |reader.graph.nodes| ==>
          NodeCounts(reader.graph.nodes, reader.graph.edges, reader.sym, find, ops, i))
    && forall f :: f != ROOT_FRAME ==> FrameCounts(reader.graph.frames, reader.sym, find, ops, f)
  }

  lemma RootIsCounted(writer: ProtoWriter<Summary>, reader: Processor<Summary>, capacity: nat, acts: seq<Action>)
    requires writer.g == Wrapping() && Runs(Wrapping(), SummaryCosts(), Start(Wrapping(), capacity), acts)
    requires Follows(writer, reader, After(Wrapping(), SummaryCosts(), Start(Wrapping(), capacity), acts))
    requires Complete(Wrapping(), SummaryCosts(), capacity, acts) && writer.changed == {}
    ensures Counts(reader.graph.nodes[0].agg.total, History(acts), Everything())
  {
    RootIsExact(writer, reader, SummaryCosts(), capacity, acts);
    SumCounts(History(acts), Everything());
  }

  lemma NodeIsCounted(writer: ProtoWriter<Summary>, reader: Processor<Summary>, capacity: nat, acts: seq<Action>,
                      find: Finder, i: nat)
    requires writer.g == Wrapping() && Runs(Wrapping(), SummaryCosts(), Start(Wrapping(), capacity), acts)
    requires Profiled(writer, reader, After(Wrapping(), SummaryCosts(), Start(Wrapping(), capacity), acts), find)
    requires Complete(Wrapping(), SummaryCosts(), capacity, acts) && writer.changed == {}
    requires i < |reader.graph.nodes|
    ensures NodeCounts(reader.graph.nodes, reader.graph.edges, reader.sym, find, History(acts), i)
  {
    var path := Trace(reader.graph.nodes, reader.graph.edges, i);
    NodeIsExact(writer, reader, SummaryCosts(), capacity, acts, find, i);
    SumCounts(History(acts), Falling(reader.sym, find, At(path)));
    SumCounts(History(acts), Falling(reader.sym, find, Under(path)));
  }

  lemma FrameIsCounted(writer: ProtoWriter<Summary>, reader: Processor<Summary>, capacity: nat, acts: seq<Action>,
                       find: Finder, f: Frame)
    requires writer.g == Wrapping() && Runs(Wrapping(), SummaryCosts(), Start(Wrapping(), capacity), acts)
    requires Profiled(writer, reader, After(Wrapping(), SummaryCosts(), Start(Wrapping(), capacity), acts), find)
    requires Complete(Wrapping(), SummaryCosts(), capacity, acts) && writer.changed == {}
    requires f != ROOT_FRAME
    ensures FrameCounts(reader.graph.frames, reader.sym, find, History(acts), f)
  {
    FrameIsExact(writer, reader, SummaryCosts(), capacity, acts, find, f);
    SumCounts(History(acts), Falling(reader.sym, find, EndingIn(f)));
    SumCounts(History(acts), Falling(reader.sym, find, Through(f)));
  }

  // Everything the reader shows counts the operations
  lemma ReaderCounts(writer: ProtoWriter<Summary>, reader: Processor<Summary>, capacity: nat, acts: seq<Action>,
                     find: Finder)
    requires writer.g == Wrapping() && Runs(Wrapping(), SummaryCosts(), Start(Wrapping(), capacity), acts)
    requires Profiled(writer, reader, After(Wrapping(), SummaryCosts(), Start(Wrapping(), capacity), acts), find)
    requires Complete(Wrapping(), SummaryCosts(), capacity, acts) && writer.changed == {}
    ensures AllCounted(reader, find, History(acts))
  {
    forall i | 0 <= i < |reader.graph.nodes|
      ensures NodeCounts(reader.graph.nodes, reader.graph.edges, reader.sym, find, History(acts), i)
    {
      NodeIsCounted(writer, reader, capacity, acts, find, i);
    }
    forall f | f != ROOT_FRAME ensures FrameCounts(reader.graph.frames, reader.sym, find, History(acts), f) {
      FrameIsCounted(writer, reader, capacity, acts, find, f);
    }
  }

  // The profiler with its own counters. After a finished round that drained everything, with room in the ring
  // for every postponed operation, the counters shown are those of the operations.
  method ProfileSummaries(sym: nat -> seq<Frame>, capacity: nat, acts: seq<Action>, clock: Clock, lookups: Lookups,
                          ghost find: Finder)
    returns (writer: ProtoWriter<Summary>, reader: Processor<Summary>, seen: seq<Summary>)
    requires Runs(Wrapping(), SummaryCosts(), Start(Wrapping(), capacity), acts) && Ticking(clock)
    ensures seen == [ZERO] + WrittenTotals(Wrapping(), SummaryCosts(), Start(Wrapping(), capacity), acts)
    ensures writer.g == Wrapping() && reader.sym == sym
    ensures Follows(writer, reader, After(Wrapping(), SummaryCosts(), Start(Wrapping(), capacity), acts))
    ensures Agrees(AllEvents(Wrapping(), SummaryCosts(), capacity, acts, clock, lookups), find, {}, {}) ==>
      Profiled(writer, reader, After(Wrapping(), SummaryCosts(), Start(Wrapping(), capacity), acts), find)
    ensures Rested(acts) ==> writer.changed == {} && reader.graph.nodes[0].agg.total == writer.total
    ensures Rested(acts) && Complete(Wrapping(), SummaryCosts(), capacity, acts) ==>
      Counts(reader.graph.nodes[0].agg.total, History(acts), Everything())
    ensures Rested(acts) && Complete(Wrapping(), SummaryCosts(), capacity, acts) ==>
      Agrees(AllEvents(Wrapping(), SummaryCosts(), capacity, acts, clock, lookups), find, {}, {}) ==>
        AllCounted(reader, find, History(acts))
  {
    WrappingIsLawful();
    writer, reader, seen := Profile(Wrapping(), SummaryCosts(), sym, capacity, acts, clock, lookups, find);
    if Rested(acts) && Complete(Wrapping(), SummaryCosts(), capacity, acts) {
      RootIsCounted(writer, reader, capacity, acts);
      if Profiled(writer, reader, After(Wrapping(), SummaryCosts(), Start(Wrapping(), capacity), acts), find) {
        ReaderCounts(writer, reader, capacity, acts, find);
      }
    }
  }
}
