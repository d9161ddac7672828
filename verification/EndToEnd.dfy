/**
 From allocation events to the reader's call graph. The worker's drains turn a
 run of the accounting state machine into writer events; replaying them, the
 reader's root total after each snapshot is the total written so far.
 */
module EndToEnd {
  import opened Options
  import opened Groups
  import opened Tallies
  import opened CallTree
  import opened Accounting
  import opened AccountingRuns
  import opened Conservation
  import opened CallGraph
  import opened Attribution
  import opened Writer
  import opened Reader
  import opened Session

  type Finder = nat -> Option<seq<nat>>

  // The lookup of stacks as it stands at the k-th flush
  type Lookups = nat -> Finder

  // The clock reading at the k-th flush
  type Clock = nat -> nat

  ghost predicate Ticking(clock: Clock) {
    clock(0) > 0 && forall i, j :: i < j ==> clock(i) < clock(j)
  }

  // What the worker does to the writer: accounts each drained tracker and flushes at the end of each round
  function Emitted<T>(g: Group<T>, c: Costs<T>, s: State<T>, acts: seq<Action>, clock: Clock, k: nat,
                      lookups: Lookups): (r: seq<Event<T>>)
    requires Runs(g, c, s, acts)
    decreases |acts|
  {
    if acts == [] then []
    else
      var s' := Do(g, c, s, acts[0]);
      match acts[0]
      case DrainAccount =>
        [Account(s.worker.hand.summaries, s.worker.hand.total)] + Emitted(g, c, s', acts[1..], clock, k, lookups)
      case DrainEnd => [Flush(clock(k), lookups(k))] + Emitted(g, c, s', acts[1..], clock, k + 1, lookups)
      case _ => Emitted(g, c, s', acts[1..], clock, k, lookups)
  }

  // The written total at the end of each round
  function WrittenTotals<T>(g: Group<T>, c: Costs<T>, s: State<T>, acts: seq<Action>): (r: seq<T>)
    requires Runs(g, c, s, acts)
    decreases |acts|
  {
    if acts == [] then []
    else
      (if acts[0].DrainEnd? then [s.written.total] else []) + WrittenTotals(g, c, Do(g, c, s, acts[0]), acts[1..])
  }

  // Tallies only ever hold 32-bit trace ids
  ghost predicate IdsOk<T>(s: State<T>) {
    && (forall i :: 0 <= i < |s.trackers| ==> Below(s.trackers[i].summaries, TRACE_IDS))
    && Below(s.exiting.summaries, TRACE_IDS) && Below(s.inner.summaries, TRACE_IDS)
    && Below(s.worker.hand.summaries, TRACE_IDS)
  }

  lemma TrackIds<T(!new)>(g: Group<T>, c: Costs<T>, t: Tracker<T>, op: Op)
    requires Below(t.summaries, TRACE_IDS)
    ensures Below(Track(g, c, t, op).summaries, TRACE_IDS)
  {
  }

  lemma ThreadIds<T(!new)>(g: Group<T>, c: Costs<T>, s: State<T>, k: nat, op: Op)
    requires IdsOk(s) && k < |s.threads| && OwnsTracker(s.threads[k], |s.trackers|)
    ensures IdsOk(OnThread(g, c, s, k, op))
  {
    TrackIds(g, c, s.exiting, op);
    if s.threads[k].local.Own? {
      TrackIds(g, c, s.trackers[s.threads[k].local.id], op);
    }
  }

  lemma StepIds<T(!new)>(g: Group<T>, c: Costs<T>, s: State<T>, a: Action)
    requires IdsOk(s) && Enabled(s, a)
    ensures IdsOk(Do(g, c, s, a))
  {
    match a
    case External(k, op) => ThreadIds(g, c, s, k, op);
    case ExternalRealloc(k, prev, info) =>
      ThreadIds(g, c, s, k, Free(prev));
      ThreadIds(g, c, Submit(g, c, OnThread(g, c, s, k, Free(prev)), Free(prev)), k, Alloc(info));
    case InnerApply(k) => TrackIds(g, c, s.inner, s.threads[k].inner.op);
    case InnerTrack(k, op) => TrackIds(g, c, s.inner, op);
    case InnerRealloc(k, prev, info) =>
      TrackIds(g, c, s.inner, Free(prev));
      TrackIds(g, c, Track(g, c, s.inner, Free(prev)), Alloc(info));
    case _ =>
  }

  lemma StepKeeps<T(!new)>(g: Group<T>, c: Costs<T>, s: State<T>, a: Action)
    requires Lawful(g) && Valid(g, c, s) && IdsOk(s) && Enabled(s, a)
    ensures Valid(g, c, Do(g, c, s, a)) && IdsOk(Do(g, c, s, a))
    ensures Do(g, c, s, a).written.total
      == if a.DrainAccount? then g.add(s.written.total, s.worker.hand.total) else s.written.total
    ensures a.DrainAccount? ==> s.worker.hand.total == Total(g, s.worker.hand.summaries, TRACE_IDS)
  {
    StepConserves(g, c, s, a);
    StepTotals(g, c, s, a);
    StepOwned(g, c, s, a);
    StepIds(g, c, s, a);
  }

  lemma FlushFirst<T(!new)>(g: Group<T>, timestamp: nat, find: Finder, rest: seq<Event<T>>, now: nat, sofar: T)
    requires timestamp > now && Proper(g, rest, timestamp)
    ensures Proper(g, [Flush(timestamp, find)] + rest, now)
    ensures RunningTotals(g, [Flush(timestamp, find)] + rest, sofar) == [sofar] + RunningTotals(g, rest, sofar)
  {
    assert ([Flush(timestamp, find)] + rest)[1..] == rest;
  }

  lemma AccountFirst<T(!new)>(g: Group<T>, summaries: map<nat, T>, total: T, rest: seq<Event<T>>, now: nat, sofar: T)
    requires Below(summaries, TRACE_IDS) && total == Total(g, summaries, TRACE_IDS) && Proper(g, rest, now)
    ensures Proper(g, [Account(summaries, total)] + rest, now)
    ensures RunningTotals(g, [Account(summaries, total)] + rest, sofar) == RunningTotals(g, rest, g.add(sofar, total))
  {
    assert ([Account(summaries, total)] + rest)[1..] == rest;
  }

  // The worker's events satisfy what the session requires, and their running totals are the written totals
  lemma {:induction false} EmittedIsProper<T(!new)>(g: Group<T>, c: Costs<T>, s: State<T>, acts: seq<Action>,
                                                    clock: Clock, k: nat, lookups: Lookups, now: nat)
    requires Lawful(g) && Valid(g, c, s) && IdsOk(s) && Runs(g, c, s, acts)
    requires Ticking(clock) && now < clock(k)
    ensures Proper(g, Emitted(g, c, s, acts, clock, k, lookups), now)
    ensures RunningTotals(g, Emitted(g, c, s, acts, clock, k, lookups), s.written.total) == WrittenTotals(g, c, s, acts)
    decreases |acts|
  {
    if acts != [] {
      var a, next := acts[0], Do(g, c, s, acts[0]);
      StepKeeps(g, c, s, a);
      var before, after := s.written.total, next.written.total;
      if a.DrainEnd? {
        assert clock(k) < clock(k + 1);
        EmittedIsProper(g, c, next, acts[1..], clock, k + 1, lookups, clock(k));
        FlushFirst(g, clock(k), lookups(k), Emitted(g, c, next, acts[1..], clock, k + 1, lookups), now, before);
      } else {
        EmittedIsProper(g, c, next, acts[1..], clock, k, lookups, now);
        if a.DrainAccount? {
          var hand := s.worker.hand;
          AccountFirst(g, hand.summaries, hand.total, Emitted(g, c, next, acts[1..], clock, k, lookups), now, before);
        }
      }
    }
  }

  // ----- what the run leaves with the writer

  lemma AccruedFirst<T(!new)>(g: Group<T>, e: Event<T>, rest: seq<Event<T>>, t: nat, x: T, total: T)
    ensures Accrued(g, [e] + rest, t, x)
      == Accrued(g, rest, t, if e.Account? then g.add(x, Get(g, e.summaries, t)) else x)
    ensures AccruedTotal(g, [e] + rest, total)
      == AccruedTotal(g, rest, if e.Account? then g.add(total, e.total) else total)
  {
    assert ([e] + rest)[1..] == rest;
  }

  // The value of every trace after the events is the written value after the run
  lemma {:induction false} EmittedAccrues<T(!new)>(g: Group<T>, c: Costs<T>, s: State<T>, acts: seq<Action>,
                                                   clock: Clock, k: nat, lookups: Lookups, t: nat)
    requires Lawful(g) && Runs(g, c, s, acts)
    ensures Accrued(g, Emitted(g, c, s, acts, clock, k, lookups), t, Get(g, s.written.summaries, t))
      == Get(g, After(g, c, s, acts).written.summaries, t)
    ensures AccruedTotal(g, Emitted(g, c, s, acts, clock, k, lookups), s.written.total)
      == After(g, c, s, acts).written.total
    decreases |acts|
  {
    if acts != [] {
      var a, next := acts[0], Do(g, c, s, acts[0]);
      var now := if a.DrainEnd? then k + 1 else k;
      EmittedAccrues(g, c, next, acts[1..], clock, now, lookups, t);
      var rest := Emitted(g, c, next, acts[1..], clock, now, lookups);
      if a.DrainAccount? {
        MergeAdds(g, s.written.summaries, s.worker.hand.summaries);
        AccruedFirst(g, Account(s.worker.hand.summaries, s.worker.hand.total), rest,
                     t, Get(g, s.written.summaries, t), s.written.total);
      } else if a.DrainEnd? {
        AccruedFirst(g, Flush(clock(k), lookups(k)), rest, t, Get(g, s.written.summaries, t), s.written.total);
      }
    }
  }

  // The run ends with a finished round of draining
  predicate Rested(acts: seq<Action>) {
    acts == [] || acts[|acts| - 1].DrainEnd?
  }

  lemma {:induction false} EmittedEnds<T(!new)>(g: Group<T>, c: Costs<T>, s: State<T>, acts: seq<Action>,
                                                clock: Clock, k: nat, lookups: Lookups)
    requires Runs(g, c, s, acts) && Rested(acts) && acts != []
    ensures EndsFlushed(Emitted(g, c, s, acts, clock, k, lookups))
    decreases |acts|
  {
    if |acts| > 1 {
      EmittedEnds(g, c, Do(g, c, s, acts[0]), acts[1..], clock, if acts[0].DrainEnd? then k + 1 else k, lookups);
    }
  }

  // ----- the opening of the file

  // A new writer accounts an empty summary for trace 0 and flushes it
  function Opening<T>(g: Group<T>, clock: Clock, lookups: Lookups): (r: seq<Event<T>>) {
    [Account(map[0 := g.zero], g.zero), Flush(clock(0), lookups(0))]
  }

  lemma OpeningIsEmpty<T(!new)>(g: Group<T>, clock: Clock, lookups: Lookups, rest: seq<Event<T>>, t: nat)
    requires Lawful(g) && Ticking(clock) && Proper(g, rest, clock(0))
    ensures Proper(g, Opening(g, clock, lookups) + rest, 0)
    ensures RunningTotals(g, Opening(g, clock, lookups) + rest, g.zero) == [g.zero] + RunningTotals(g, rest, g.zero)
    ensures Accrued(g, Opening(g, clock, lookups) + rest, t, g.zero) == Accrued(g, rest, t, g.zero)
    ensures AccruedTotal(g, Opening(g, clock, lookups) + rest, g.zero) == AccruedTotal(g, rest, g.zero)
  {
    var empty := map[0 := g.zero];
    var flush := [Flush(clock(0), lookups(0))] + rest;
    assert Opening(g, clock, lookups) + rest == [Account(empty, g.zero)] + flush;
    SumZeros(g, Column(g, empty, TRACE_IDS));
    Zero(g, g.zero);
    FlushFirst(g, clock(0), lookups(0), rest, 0, g.zero);
    AccountFirst(g, empty, g.zero, flush, 0, g.zero);
    AccruedFirst(g, Flush(clock(0), lookups(0)), rest, t, g.zero, g.zero);
    AccruedFirst(g, Account(empty, g.zero), flush, t, g.zero, g.zero);
  }

  // ----- whole runs

  // All events of a profiled process
  function AllEvents<T>(g: Group<T>, c: Costs<T>, capacity: nat, acts: seq<Action>, clock: Clock, lookups: Lookups)
    : (r: seq<Event<T>>)
    requires Runs(g, c, Start(g, capacity), acts)
  {
    Opening(g, clock, lookups) + Emitted(g, c, Start(g, capacity), acts, clock, 1, lookups)
  }

  lemma AllEventsAreProper<T(!new)>(g: Group<T>, c: Costs<T>, capacity: nat, acts: seq<Action>, clock: Clock,
                                    lookups: Lookups)
    requires Lawful(g) && Runs(g, c, Start(g, capacity), acts) && Ticking(clock)
    ensures var s, events := Start(g, capacity), AllEvents(g, c, capacity, acts, clock, lookups);
      && Proper(g, events, 0) && (Rested(acts) ==> EndsFlushed(events))
      && RunningTotals(g, events, g.zero) == [g.zero] + WrittenTotals(g, c, s, acts)
      && AccruedTotal(g, events, g.zero) == After(g, c, s, acts).written.total
      && forall t :: Accrued(g, events, t, g.zero) == Get(g, After(g, c, s, acts).written.summaries, t)
  {
    var s, events := Start(g, capacity), AllEvents(g, c, capacity, acts, clock, lookups);
    var rest := Emitted(g, c, s, acts, clock, 1, lookups);
    StartIsValid(g, c, capacity);
    assert clock(0) < clock(1);
    EmittedIsProper(g, c, s, acts, clock, 1, lookups, clock(0));
    if Rested(acts) && acts != [] {
      EmittedEnds(g, c, s, acts, clock, 1, lookups);
    }
    forall t ensures Accrued(g, events, t, g.zero) == Get(g, After(g, c, s, acts).written.summaries, t) {
      OpeningIsEmpty(g, clock, lookups, rest, t);
      EmittedAccrues(g, c, s, acts, clock, 1, lookups, t);
    }
    OpeningIsEmpty(g, clock, lookups, rest, 0);
    EmittedAccrues(g, c, s, acts, clock, 1, lookups, 0);
  }

  // The writer has what the state machine has written, and the reader follows it
  ghost predicate Follows<T(!new)>(writer: ProtoWriter<T>, reader: Processor<T>, end: State<T>)
    reads writer, reader, reader.graph
  {
    && Linked(writer, reader) && writer.total == end.written.total
    && forall t {:trigger Get(writer.g, writer.local, t)} ::
         Get(writer.g, writer.local, t) == Get(writer.g, end.written.summaries, t)
  }

  // And the traces are at the paths that the lookup gives
  ghost predicate Profiled<T(!new)>(writer: ProtoWriter<T>, reader: Processor<T>, end: State<T>, find: Finder)
    reads writer, reader, reader.graph
  {
    Follows(writer, reader, end) && Named(reader.sym, find, writer.written, reader.located)
  }

  // For every interleaving of threads and worker, the totals the reader sees are the totals written. When the
  // last round of draining is finished, the reader's root has everything written.
  method Profile<T(!new)>(g: Group<T>, c: Costs<T>, sym: nat -> seq<Frame>, capacity: nat, acts: seq<Action>,
                          clock: Clock, lookups: Lookups, ghost find: Finder)
    returns (writer: ProtoWriter<T>, reader: Processor<T>, seen: seq<T>)
    requires Lawful(g) && Runs(g, c, Start(g, capacity), acts) && Ticking(clock)
    ensures seen == [g.zero] + WrittenTotals(g, c, Start(g, capacity), acts)
    ensures writer.g == g && reader.sym == sym && Follows(writer, reader, After(g, c, Start(g, capacity), acts))
    ensures Agrees(AllEvents(g, c, capacity, acts, clock, lookups), find, {}, {}) ==>
      Profiled(writer, reader, After(g, c, Start(g, capacity), acts), find)
    ensures Rested(acts) ==>
      writer.changed == {} && reader.graph.nodes[0].agg.total == After(g, c, Start(g, capacity), acts).written.total
  {
    AllEventsAreProper(g, c, capacity, acts, clock, lookups);
    var sent;
    writer, reader, sent, seen := Run(g, sym, AllEvents(g, c, capacity, acts, clock, lookups), find);
  }

  // ----- the reader's graph and the operations

  lemma WrittenInBalance<T(!new)>(g: Group<T>, c: Costs<T>, s: State<T>, total: T)
    requires total == s.written.total
    ensures Balance(g, c, s)[6 := total] == Balance(g, c, s)
  {
  }

  // The root's total and what is still in the trackers, the ring, the hands and among the skipped operations
  // add up to the costs of all operations
  lemma RootHolds<T(!new)>(writer: ProtoWriter<T>, reader: Processor<T>, c: Costs<T>, end: State<T>, ops: seq<Op>)
    requires Follows(writer, reader, end) && writer.changed == {}
    requires HoldsAll(writer.g, c, end, ops) && TotalsOk(writer.g, end)
    ensures Sum(writer.g, Balance(writer.g, c, end)[6 := reader.graph.nodes[0].agg.total])
      == Sum(writer.g, OpCosts(writer.g, c, ops, Everything()))
  {
    RootIsSent(writer, reader);
    BalanceHolds(writer.g, c, end, ops);
    WrittenInBalance(writer.g, c, end, writer.total);
  }

  // `sum` and the skipped operations cost what all operations cost, on the chosen traces
  ghost predicate IsCost<T(!new)>(g: Group<T>, c: Costs<T>, end: State<T>, ops: seq<Op>, keep: nat -> bool, sum: T) {
    g.add(sum, Sum(g, OpCosts(g, c, end.skipped, keep))) == Sum(g, OpCosts(g, c, ops, keep))
  }

  lemma WrittenHolds<T(!new)>(writer: ProtoWriter<T>, reader: Processor<T>, c: Costs<T>, end: State<T>, ops: seq<Op>,
                              keep: nat -> bool)
    requires Follows(writer, reader, end) && HoldsAll(writer.g, c, end, ops) && Drained(end)
    ensures IsCost(writer.g, c, end, ops, keep, Total(writer.g, Only(writer.local, keep), TRACE_IDS))
  {
    DrainedHolds(writer.g, c, end, ops, keep);
    OnlyTotal(writer.g, writer.local, end.written.summaries, keep, TRACE_IDS);
  }

  // Once everything is drained and flushed, every node's own value is the cost of the operations on traces with
  // the node's path, and its total is the cost of the operations on traces whose path extends it
  lemma NodeHolds<T(!new)>(writer: ProtoWriter<T>, reader: Processor<T>, c: Costs<T>, end: State<T>, ops: seq<Op>,
                           find: Finder, i: nat)
    requires Profiled(writer, reader, end, find) && writer.changed == {}
    requires HoldsAll(writer.g, c, end, ops) && Drained(end) && i < |reader.graph.nodes|
    ensures var node, path := reader.graph.nodes[i], Trace(reader.graph.nodes, reader.graph.edges, i);
      && IsCost(writer.g, c, end, ops, Falling(reader.sym, find, At(path)), CallTree.Own(writer.g, node.agg))
      && IsCost(writer.g, c, end, ops, Falling(reader.sym, find, Under(path)), node.agg.total)
  {
    var path := Trace(reader.graph.nodes, reader.graph.edges, i);
    NodeIsSent(writer, reader, find, i);
    WrittenHolds(writer, reader, c, end, ops, Falling(reader.sym, find, At(path)));
    WrittenHolds(writer, reader, c, end, ops, Falling(reader.sym, find, Under(path)));
  }

  // The costs of operations, by region
  ghost function CostSum<T>(g: Group<T>, c: Costs<T>, ops: seq<Op>, sym: nat -> seq<Frame>, find: Finder)
    : (sum: Region -> T)
  {
    (r: Region) => Sum(g, OpCosts(g, c, ops, Falling(sym, find, r)))
  }

  // A frame's total and own value, and the skipped operations, cost what all operations cost, by the frame's regions
  ghost predicate FrameIsCost<T(!new)>(g: Group<T>, f: Frame, frames: map<Frame, Aggregate<T>>,
                                       skipped: Region -> T, all: Region -> T) {
    && g.add(FrameTotal(g, frames, f), TotalBy(g, f, skipped)) == TotalBy(g, f, all)
    && g.add(FrameOwn(g, frames, f), OwnBy(g, f, skipped)) == OwnBy(g, f, all)
  }

  // The same for frames
  lemma FrameHolds<T(!new)>(writer: ProtoWriter<T>, reader: Processor<T>, c: Costs<T>, end: State<T>, ops: seq<Op>,
                            find: Finder, f: Frame)
    requires Profiled(writer, reader, end, find) && writer.changed == {}
    requires HoldsAll(writer.g, c, end, ops) && Drained(end)
    ensures FrameIsCost(writer.g, f, reader.graph.frames, CostSum(writer.g, c, end.skipped, reader.sym, find),
                        CostSum(writer.g, c, ops, reader.sym, find))
  {
    var g := writer.g;
    FrameIsSent(writer, reader, find, f);
    var sent := SentSum(g, writer.local, reader.sym, find);
    var all, skipped := CostSum(g, c, ops, reader.sym, find), CostSum(g, c, end.skipped, reader.sym, find);
    forall r ensures all(r) == g.add(sent(r), skipped(r)) {
      WrittenHolds(writer, reader, c, end, ops, Falling(reader.sym, find, r));
    }
    ByAdds(g, f, sent, skipped, all);
  }

  // ----- the same for the history of a run

  lemma RootIsHistory<T(!new)>(writer: ProtoWriter<T>, reader: Processor<T>, c: Costs<T>, capacity: nat,
                               acts: seq<Action>)
    requires Runs(writer.g, c, Start(writer.g, capacity), acts)
    requires Follows(writer, reader, After(writer.g, c, Start(writer.g, capacity), acts)) && writer.changed == {}
    ensures var g, s := writer.g, After(writer.g, c, Start(writer.g, capacity), acts);
      Sum(g, Balance(g, c, s)[6 := reader.graph.nodes[0].agg.total])
      == Sum(g, OpCosts(g, c, History(acts), Everything()))
  {
    StartIsValid(writer.g, c, capacity);
    RunIsValid(writer.g, c, Start(writer.g, capacity), acts);
    RunHoldsAll(writer.g, c, capacity, acts);
    RootHolds(writer, reader, c, After(writer.g, c, Start(writer.g, capacity), acts), History(acts));
  }

  lemma NodeIsHistory<T(!new)>(writer: ProtoWriter<T>, reader: Processor<T>, c: Costs<T>, capacity: nat,
                               acts: seq<Action>, find: Finder, i: nat)
    requires Runs(writer.g, c, Start(writer.g, capacity), acts)
    requires Drained(After(writer.g, c, Start(writer.g, capacity), acts))
    requires Profiled(writer, reader, After(writer.g, c, Start(writer.g, capacity), acts), find) && writer.changed == {}
    requires i < |reader.graph.nodes|
    ensures var s := After(writer.g, c, Start(writer.g, capacity), acts);
      var node, path := reader.graph.nodes[i], Trace(reader.graph.nodes, reader.graph.edges, i);
      && IsCost(writer.g, c, s, History(acts), Falling(reader.sym, find, At(path)), CallTree.Own(writer.g, node.agg))
      && IsCost(writer.g, c, s, History(acts), Falling(reader.sym, find, Under(path)), node.agg.total)
  {
    RunHoldsAll(writer.g, c, capacity, acts);
    NodeHolds(writer, reader, c, After(writer.g, c, Start(writer.g, capacity), acts), History(acts), find, i);
  }

  lemma FrameIsHistory<T(!new)>(writer: ProtoWriter<T>, reader: Processor<T>, c: Costs<T>, capacity: nat,
                                acts: seq<Action>, find: Finder, f: Frame)
    requires Runs(writer.g, c, Start(writer.g, capacity), acts)
    requires Drained(After(writer.g, c, Start(writer.g, capacity), acts))
    requires Profiled(writer, reader, After(writer.g, c, Start(writer.g, capacity), acts), find) && writer.changed == {}
    ensures var s := After(writer.g, c, Start(writer.g, capacity), acts);
      FrameIsCost(writer.g, f, reader.graph.frames, CostSum(writer.g, c, s.skipped, reader.sym, find),
                  CostSum(writer.g, c, History(acts), reader.sym, find))
  {
    RunHoldsAll(writer.g, c, capacity, acts);
    FrameHolds(writer, reader, c, After(writer.g, c, Start(writer.g, capacity), acts), History(acts), find, f);
  }
}
