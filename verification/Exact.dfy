/**
 Runs in which the ring of postponed operations never overflows: once
 everything is drained and flushed, root, nodes and frames of the reader's
 graph show exactly the costs of the operations submitted.
 */
module Exact {
  import opened Groups
  import opened CallTree
  import opened CallGraph
  import opened Accounting
  import opened AccountingRuns
  import opened Ring
  import opened Conservation
  import opened Attribution
  import opened Writer
  import opened Reader
  import opened Session
  import opened EndToEnd

  // The end of a run after which nothing is under way and nothing was skipped
  ghost predicate Complete<T(!new)>(g: Group<T>, c: Costs<T>, capacity: nat, acts: seq<Action>)
    requires Runs(g, c, Start(g, capacity), acts)
  {
    Fits(0, capacity, acts) && Drained(After(g, c, Start(g, capacity), acts))
  }

  lemma CostWithoutSkips<T(!new)>(g: Group<T>, c: Costs<T>, end: State<T>, ops: seq<Op>, keep: nat -> bool, sum: T)
    requires Lawful(g) && IsCost(g, c, end, ops, keep, sum) && end.skipped == []
    ensures sum == Sum(g, OpCosts(g, c, ops, keep))
  {
    assert OpCosts(g, c, end.skipped, keep) == [];
    Zero(g, sum);
  }

  lemma RootIsExact<T(!new)>(writer: ProtoWriter<T>, reader: Processor<T>, c: Costs<T>, capacity: nat,
                             acts: seq<Action>)
    requires Runs(writer.g, c, Start(writer.g, capacity), acts) && Complete(writer.g, c, capacity, acts)
    requires Follows(writer, reader, After(writer.g, c, Start(writer.g, capacity), acts)) && writer.changed == {}
    ensures reader.graph.nodes[0].agg.total == Sum(writer.g, OpCosts(writer.g, c, History(acts), Everything()))
  {
    var g, end := writer.g, After(writer.g, c, Start(writer.g, capacity), acts);
    NoneSkippedIff(g, c, capacity, acts);
    RootIsSent(writer, reader);
    StartIsValid(g, c, capacity);
    RunIsValid(g, c, Start(g, capacity), acts);
    RunHoldsAll(g, c, capacity, acts);
    DrainedHolds(g, c, end, History(acts), Everything());
    AllTotal(g, end.written);
    CostWithoutSkips(g, c, end, History(acts), Everything(), end.written.total);
  }

  lemma NodeIsExact<T(!new)>(writer: ProtoWriter<T>, reader: Processor<T>, c: Costs<T>, capacity: nat,
                             acts: seq<Action>, find: Finder, i: nat)
    requires Runs(writer.g, c, Start(writer.g, capacity), acts) && Complete(writer.g, c, capacity, acts)
    requires Profiled(writer, reader, After(writer.g, c, Start(writer.g, capacity), acts), find) && writer.changed == {}
    requires i < |reader.graph.nodes|
    ensures var node, path := reader.graph.nodes[i], Trace(reader.graph.nodes, reader.graph.edges, i);
      var cost := CostSum(writer.g, c, History(acts), reader.sym, find);
      CallTree.Own(writer.g, node.agg) == cost(At(path)) && node.agg.total == cost(Under(path))
  {
    var g, end := writer.g, After(writer.g, c, Start(writer.g, capacity), acts);
    var node, path := reader.graph.nodes[i], Trace(reader.graph.nodes, reader.graph.edges, i);
    NoneSkippedIff(g, c, capacity, acts);
    NodeIsHistory(writer, reader, c, capacity, acts, find, i);
    CostWithoutSkips(g, c, end, History(acts), Falling(reader.sym, find, At(path)), CallTree.Own(g, node.agg));
    CostWithoutSkips(g, c, end, History(acts), Falling(reader.sym, find, Under(path)), node.agg.total);
  }

  lemma FrameIsExact<T(!new)>(writer: ProtoWriter<T>, reader: Processor<T>, c: Costs<T>, capacity: nat,
                              acts: seq<Action>, find: Finder, f: Frame)
    requires Runs(writer.g, c, Start(writer.g, capacity), acts) && Complete(writer.g, c, capacity, acts)
    requires Profiled(writer, reader, After(writer.g, c, Start(writer.g, capacity), acts), find) && writer.changed == {}
    ensures var g, cost := writer.g, CostSum(writer.g, c, History(acts), reader.sym, find);
      && FrameTotal(g, reader.graph.frames, f) == TotalBy(g, f, cost)
      && FrameOwn(g, reader.graph.frames, f) == OwnBy(g, f, cost)
  {
    var g, end := writer.g, After(writer.g, c, Start(writer.g, capacity), acts);
    NoneSkippedIff(g, c, capacity, acts);
    FrameIsHistory(writer, reader, c, capacity, acts, find, f);
    var none := CostSum(g, c, end.skipped, reader.sym, find);
    forall r: Region ensures none(r) == g.zero {
      assert OpCosts(g, c, end.skipped, Falling(reader.sym, find, r)) == [];
    }
    Zero(g, g.zero);
    Zero(g, FrameTotal(g, reader.graph.frames, f));
    Zero(g, FrameOwn(g, reader.graph.frames, f));
  }
}
