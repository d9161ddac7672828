/**
 The symbolizer's processor: it replays snapshots into the call graph. The
 symbolization of an address is a fixed function from addresses to frames.
 */
module Reader {
  import opened Groups
  import opened Tallies
  import opened CallTree
  import opened CallGraph
  import opened CallTheorems
  import opened Snapshots
  import opened Restart
  import opened RootFrame
  import opened Attribution

  const MEMHAWK_FRAME: Frame := 1
  const UNKNOWN_FRAME: Frame := 2
  // 2^31 saturated to the largest signed 32-bit number
  const MEMHAWK_TRACES: nat := 0x7FFF_FFFF

  // ----- what a snapshot does to the reader's tables

  function ApplyPtrs(table: map<nat, nat>, ptrs: seq<PtrEntry>): (r: map<nat, nat>) {
    if ptrs == [] then table
    else
      var e := ptrs[|ptrs| - 1];
      ApplyPtrs(table, ptrs[..|ptrs| - 1])[e.id := e.addr]
  }

  // The known addresses behind the ids, in reverse order
  function Resolved(table: map<nat, nat>, ids: seq<nat>): (r: seq<nat>) {
    if ids == [] then []
    else Resolved(table, ids[1..]) + if ids[0] in table then [table[ids[0]]] else []
  }

  function Symbols(sym: nat -> seq<Frame>, addrs: seq<nat>): (r: seq<Frame>) {
    if addrs == [] then [] else Symbols(sym, addrs[..|addrs| - 1]) + sym(addrs[|addrs| - 1])
  }

  // The frames of a trace, outermost first; traces of the profiler itself get their own root
  function Localized(sym: nat -> seq<Frame>, traceId: nat, addrs: seq<nat>): (r: seq<Frame>) {
    (if traceId >= MEMHAWK_TRACES then [MEMHAWK_FRAME] else []) + Symbols(sym, addrs)
  }

  function ApplyStacks(sym: nat -> seq<Frame>, table: map<nat, nat>, located: map<nat, seq<Frame>>, stacks: seq<Stack>)
    : (r: map<nat, seq<Frame>>)
  {
    if stacks == [] then located
    else
      var s := stacks[|stacks| - 1];
      var before := ApplyStacks(sym, table, located, stacks[..|stacks| - 1]);
      before[s.traceId := Localized(sym, s.traceId, Resolved(table, s.ptrIds))]
  }

  function ApplyChanged<T>(last: map<nat, T>, changed: seq<Changed<T>>): (r: map<nat, T>) {
    if changed == [] then last
    else
      var c := changed[|changed| - 1];
      var before := ApplyChanged(last, changed[..|changed| - 1]);
      if c.actual.Some? then before[c.traceId := c.actual.value] else before
  }

  // The frames of a trace; a trace that was never described has the unknown frame
  function PathOf(located: map<nat, seq<Frame>>, traceId: nat): (r: seq<Frame>) {
    if traceId in located then located[traceId] else [UNKNOWN_FRAME]
  }

  // What the changed summaries post: each one's difference to the value before it, under the path of its trace
  function PostsOf<T>(g: Group<T>, located: map<nat, seq<Frame>>, last: map<nat, T>,
                      changed: seq<Changed<T>>): (r: seq<Post<T>>) {
    if changed == [] then []
    else
      var init, c := changed[..|changed| - 1], changed[|changed| - 1];
      PostsOf(g, located, last, init) +
      if c.actual.None? then []
      else [Post(PathOf(located, c.traceId), Minus(g, c.actual.value, Get(g, ApplyChanged(last, init), c.traceId)))]
  }

  // The paths that the stacks of a snapshot intern
  ghost function StackPaths(sym: nat -> seq<Frame>, table: map<nat, nat>, stacks: seq<Stack>): (r: set<seq<Frame>>) {
    if stacks == [] then {}
    else
      var s := stacks[|stacks| - 1];
      StackPaths(sym, table, stacks[..|stacks| - 1]) + {Localized(sym, s.traceId, Resolved(table, s.ptrIds))}
  }

  // The unknown frame is interned for a summary whose trace was never described
  ghost function UnknownPaths<T>(located: map<nat, seq<Frame>>, changed: seq<Changed<T>>): (r: set<seq<Frame>>) {
    if changed == [] then {}
    else
      var c := changed[|changed| - 1];
      UnknownPaths(located, changed[..|changed| - 1]) +
      if c.actual.Some? && c.traceId !in located then {[UNKNOWN_FRAME]} else {}
  }

  // What the reader holds after the first i changed summaries, if it held last0, posts0 and paths0 before them
  ghost predicate Took<T>(g: Group<T>, located: map<nat, seq<Frame>>, changed: seq<Changed<T>>, i: nat,
                          last0: map<nat, T>, posts0: seq<Post<T>>, paths0: set<seq<Frame>>,
                          last: map<nat, T>, posts: seq<Post<T>>, paths: set<seq<Frame>>) {
    && i <= |changed|
    && last == ApplyChanged(last0, changed[..i])
    && posts == posts0 + PostsOf(g, located, last0, changed[..i])
    && paths == paths0 + UnknownPaths(located, changed[..i])
  }

  lemma TookNext<T>(g: Group<T>, located: map<nat, seq<Frame>>, changed: seq<Changed<T>>, i: nat,
                    last0: map<nat, T>, posts0: seq<Post<T>>, paths0: set<seq<Frame>>,
                    last: map<nat, T>, posts: seq<Post<T>>, paths: set<seq<Frame>>)
    requires i < |changed| && Took(g, located, changed, i, last0, posts0, paths0, last, posts, paths)
    ensures var c := changed[i];
      var more := Post(PathOf(located, c.traceId), if c.actual.None? then g.zero
                                                   else Minus(g, c.actual.value, Get(g, last, c.traceId)));
      Took(g, located, changed, i + 1, last0, posts0, paths0,
           if c.actual.Some? then last[c.traceId := c.actual.value] else last,
           posts + (if c.actual.Some? then [more] else []),
           paths + if c.actual.Some? && c.traceId !in located then {[UNKNOWN_FRAME]} else {})
  {
    assert changed[..i + 1][..i] == changed[..i];
  }

  // Symbolization never yields the frame id of the root
  ghost predicate Rootless(sym: nat -> seq<Frame>) {
    forall addr: nat :: ROOT_FRAME !in sym(addr)
  }

  lemma {:induction false} RootlessTrace(sym: nat -> seq<Frame>, traceId: nat, addrs: seq<nat>)
    requires Rootless(sym)
    ensures ROOT_FRAME !in Localized(sym, traceId, addrs)
    decreases |addrs|
  {
    if addrs != [] {
      RootlessTrace(sym, traceId, addrs[..|addrs| - 1]);
    }
  }

  ghost predicate AvoidsRoot(sym: nat -> seq<Frame>, paths: set<seq<Frame>>) {
    Rootless(sym) ==> forall p :: p in paths ==> ROOT_FRAME !in p
  }

  ghost predicate InRange<T>(snapshot: Snapshot<T>) {
    forall c :: c in snapshot.changed ==> c.traceId < TRACE_IDS
  }

  // ----- the processor

  // Every known trace has a leaf whose path is the trace's frames
  ghost predicate Leaves<T>(nodes: seq<GraphNode<T>>, edges: map<Edge, nat>, leafOf: map<nat, nat>, located: map<nat,
                            seq<Frame>>)
    requires Shaped(nodes, edges)
  {
    && leafOf.Keys == located.Keys
    && forall t :: t in leafOf ==> leafOf[t] < |nodes| && Trace(nodes, edges, leafOf[t]) == located[t]
  }

  lemma LeavesGrow<T>(a: seq<GraphNode<T>>, ea: map<Edge, nat>, b: seq<GraphNode<T>>, eb: map<Edge, nat>,
                      leafOf: map<nat, nat>, located: map<nat, seq<Frame>>)
    requires Shaped(a, ea) && Shaped(b, eb) && Extends(a, b) && Leaves(a, ea, leafOf, located)
    ensures Leaves(b, eb, leafOf, located)
  {
    forall t | t in leafOf ensures leafOf[t] < |b| && Trace(b, eb, leafOf[t]) == located[t] {
      TraceGrows(a, ea, b, eb, leafOf[t]);
    }
  }

  lemma SumWithZeros<T(!new)>(g: Group<T>, posted: seq<T>, n: nat)
    requires Lawful(g)
    ensures Sum(g, posted + Zeros(g, n)) == Sum(g, posted)
  {
    SumConcat(g, posted, Zeros(g, n));
    SumZeros(g, Zeros(g, n));
    Zero(g, Sum(g, posted));
  }

  datatype RestorableReader<T> = RestorableReader(
    graph: RestorableState<T>, table: map<nat, nat>, leafOf: map<nat, nat>, last: map<nat, T>, lastTimestamp: nat)

  class Processor<T(!new)> {
    const g: Group<T>
    const sym: nat -> seq<Frame>
    const graph: Graph<T>
    var table: map<nat, nat>
    var leafOf: map<nat, nat>
    var last: map<nat, T>
    var lastTimestamp: nat

    // the frames of every known trace
    ghost var located: map<nat, seq<Frame>>
    // every difference posted so far, and the node it was posted to
    ghost var posts: seq<Post<T>>
    ghost var leaves: seq<nat>
    // every path interned so far
    ghost var paths: set<seq<Frame>>

    ghost predicate Valid()
      reads this, graph
    {
      && graph.g == g && graph.Valid()
      && Leaves(graph.nodes, graph.edges, leafOf, located)
      && Below(last, TRACE_IDS)
      && Sum(g, graph.posted) == Total(g, last, TRACE_IDS)
      && Recorded(g, graph.nodes, graph.edges, graph.posted, posts, leaves, paths)
      && AvoidsRoot(sym, paths)
    }

    // Between snapshots nothing is postponed or waiting to be read out
    ghost predicate Quiet()
      reads this, graph
    {
      && graph.postponed == map[] && graph.modifiedSelf == {} && graph.modifiedFrames == {} && graph.newLeaves == {}
      && graph.reported == graph.frames
    }

    constructor (group: Group<T>, symbols: nat -> seq<Frame>)
      requires Lawful(group)
      ensures Valid() && Quiet() && g == group && sym == symbols && fresh(graph)
      ensures table == map[] && leafOf == map[] && last == map[] && lastTimestamp == 0
      ensures located == map[] && posts == [] && paths == {}
    {
      g, sym := group, symbols;
      graph := new Graph(group);
      table, leafOf, last, lastTimestamp := map[], map[], map[], 0;
      located, posts, leaves, paths := map[], [], [], {};
      new;
      RecordStarts(g, graph.nodes, graph.edges);
      TotalOfEmpty(g, TRACE_IDS);
      SumPush(g, [], g.zero);
      assert [] + [g.zero] == [g.zero];
      Zero(g, g.zero);
    }

    // All of the state that is saved
    function Saved(): (r: RestorableReader<T>)
      reads this, graph
    {
      RestorableReader(graph.Saved(), table, leafOf, last, lastTimestamp)
    }

    // Takes over a saved state; the ghost history comes along
    constructor Restore(group: Group<T>, symbols: nat -> seq<Frame>, state: RestorableReader<T>,
                        ghost past: Processor<T>)
      ensures g == group && sym == symbols && fresh(graph) && graph.g == group
      ensures Saved() == state && graph.posted == past.graph.posted && graph.reported == past.graph.reported
      ensures located == past.located && posts == past.posts && leaves == past.leaves && paths == past.paths
    {
      g, sym := group, symbols;
      graph := new Graph.Restore(group, state.graph, past.graph.posted, past.graph.reported);
      table, leafOf, last, lastTimestamp := state.table, state.leafOf, state.last, state.lastTimestamp;
      located, posts, leaves, paths := past.located, past.posts, past.leaves, past.paths;
    }

    method Locate(trace: seq<Frame>) returns (leaf: nat)
      requires Valid() && (Rootless(sym) ==> ROOT_FRAME !in trace)
      modifies this`paths, graph
      ensures Valid() && leaf < |graph.nodes| && Trace(graph.nodes, graph.edges, leaf) == trace
      ensures paths == old(paths) + {trace}
    {
      ghost var nodes, edges, posted := graph.nodes, graph.edges, graph.posted;
      leaf := graph.ConstructPath(trace);
      LeavesGrow(nodes, edges, graph.nodes, graph.edges, leafOf, located);
      SumWithZeros(g, posted, |graph.nodes| - |nodes|);
      RecordGrows(g, nodes, edges, posted, graph.nodes, graph.edges, graph.posted, posts, leaves, paths, leaf, trace);
      paths := paths + {trace};
    }

    // The leaf of a trace that was never described is the unknown frame
    method LeafFor(traceId: nat) returns (leaf: nat)
      requires Valid()
      modifies this`paths, graph
      ensures Valid() && leaf < |graph.nodes| && Trace(graph.nodes, graph.edges, leaf) == PathOf(located, traceId)
      ensures paths == old(paths) + if traceId in located then {} else {[UNKNOWN_FRAME]}
    {
      if traceId in leafOf {
        leaf := leafOf[traceId];
      } else {
        leaf := Locate([UNKNOWN_FRAME]);
      }
    }

    // Posts the difference to the last value of a trace to its leaf
    method PostValue(leaf: nat, traceId: nat, value: T)
      requires Valid() && traceId < TRACE_IDS
      requires leaf < |graph.nodes| && Trace(graph.nodes, graph.edges, leaf) == PathOf(located, traceId)
      modifies this`last, this`posts, this`leaves, graph
      ensures Valid() && last == old(last)[traceId := value]
      ensures posts == old(posts) + [Post(PathOf(located, traceId), Minus(g, value, Get(g, old(last), traceId)))]
    {
      var diff := Minus(g, value, Get(g, last, traceId));
      TotalSet(g, last, traceId, value, TRACE_IDS);
      ghost var posted := graph.posted;
      last := last[traceId := value];
      AttributionPosts(g, graph.nodes, graph.edges, posted, posts, leaves, leaf, PathOf(located, traceId), diff);
      graph.PostponeDiffUpdate(leaf, diff);
      SumAdd(g, posted, graph.posted, leaf, diff);
      posts, leaves := posts + [Post(PathOf(located, traceId), diff)], leaves + [leaf];
    }

    // Takes the value of a trace, unless the message has none
    method ProcessAllocSummary(c: Changed<T>) returns (ok: bool)
      requires Valid() && c.traceId < TRACE_IDS
      modifies this`last, this`posts, this`leaves, this`paths, graph
      ensures Valid() && ok == c.actual.Some?
      ensures last == if ok then old(last)[c.traceId := c.actual.value] else old(last)
      ensures posts == old(posts) + if ok then
        [Post(PathOf(located, c.traceId), Minus(g, c.actual.value, Get(g, old(last), c.traceId)))] else []
      ensures paths == old(paths) + if ok && c.traceId !in located then {[UNKNOWN_FRAME]} else {}
    {
      if c.actual.None? {
        return false;
      }
      var leaf := LeafFor(c.traceId);
      PostValue(leaf, c.traceId, c.actual.value);
      ok := true;
    }

    method ProcessAllocations(changed: seq<Changed<T>>)
      requires Valid() && forall c :: c in changed ==> c.traceId < TRACE_IDS
      modifies this`last, this`posts, this`leaves, this`paths, graph
      ensures Valid() && last == ApplyChanged(old(last), changed)
      ensures posts == old(posts) + PostsOf(g, located, old(last), changed)
      ensures paths == old(paths) + UnknownPaths(located, changed)
    {
      for i := 0 to |changed|
        invariant Valid()
        invariant Took(g, located, changed, i, old(last), old(posts), old(paths), last, posts, paths)
      {
        TookNext(g, located, changed, i, old(last), old(posts), old(paths), last, posts, paths);
        var ok := ProcessAllocSummary(changed[i]);
      }
      assert changed[..|changed|] == changed;
    }

    method LearnPtrs(ptrs: seq<PtrEntry>)
      modifies this`table
      ensures table == ApplyPtrs(old(table), ptrs)
    {
      for i := 0 to |ptrs|
        invariant table == ApplyPtrs(old(table), ptrs[..i])
      {
        assert ptrs[..i + 1][..i] == ptrs[..i];
        table := table[ptrs[i].id := ptrs[i].addr];
      }
      assert ptrs[..|ptrs|] == ptrs;
    }

    // Interns a stack
    method ProcessStack(s: Stack)
      requires Valid()
      modifies this`leafOf, this`located, this`paths, graph
      ensures Valid() && located == old(located)[s.traceId := Localized(sym, s.traceId, Resolved(table, s.ptrIds))]
      ensures paths == old(paths) + {Localized(sym, s.traceId, Resolved(table, s.ptrIds))}
    {
      var trace := Localized(sym, s.traceId, Resolved(table, s.ptrIds));
      if Rootless(sym) {
        RootlessTrace(sym, s.traceId, Resolved(table, s.ptrIds));
      }
      var leaf := Locate(trace);
      leafOf := leafOf[s.traceId := leaf];
      located := located[s.traceId := trace];
    }

    // Learns the new addresses and interns the new stacks
    method ProcessStacktraces(ptrs: seq<PtrEntry>, stacks: seq<Stack>)
      requires Valid()
      modifies this`table, this`leafOf, this`located, this`paths, graph
      ensures Valid()
      ensures table == ApplyPtrs(old(table), ptrs)
      ensures located == ApplyStacks(sym, table, old(located), stacks)
      ensures paths == old(paths) + StackPaths(sym, table, stacks)
    {
      LearnPtrs(ptrs);
      for i := 0 to |stacks|
        invariant Valid() && table == ApplyPtrs(old(table), ptrs)
        invariant located == ApplyStacks(sym, table, old(located), stacks[..i])
        invariant paths == old(paths) + StackPaths(sym, table, stacks[..i])
      {
        assert stacks[..i + 1][..i] == stacks[..i];
        ProcessStack(stacks[i]);
      }
      assert stacks[..|stacks|] == stacks;
    }

    // Propagates the posted differences and reads out what changed: the new leaves, the nodes that were posted
    // to, and every frame whose aggregate differs from what was read out before
    method ProcessModifications()
      returns (newLeaves: set<nat>, changedFrames: map<Frame, Aggregate<T>>, changedSelf: map<nat, T>)
      requires Valid()
      modifies graph
      ensures Valid() && Quiet()
      ensures graph.posted == old(graph.posted) && SameShape(old(graph.nodes), graph.nodes)
      ensures graph.edges == old(graph.edges)
      ensures newLeaves == old(graph.newLeaves)
      ensures graph.frames == old(graph.reported) + changedFrames
      ensures forall f :: f in changedFrames ==> f in graph.frames && changedFrames[f] == graph.frames[f]
      ensures changedSelf.Keys == old(graph.modifiedSelf)
      ensures forall i :: i in changedSelf ==> i < |graph.nodes| && changedSelf[i] == Own(g, graph.nodes[i].agg)
    {
      ghost var nodes := graph.nodes;
      graph.ProcessPostponedUpdates();
      ShapeKept(nodes, graph.nodes, graph.edges);
      RecordKept(g, nodes, graph.nodes, graph.edges, graph.posted, posts, leaves, paths);
      newLeaves, changedFrames, changedSelf := graph.ConsumeModifications();
    }

    lemma RootIsTotal()
      requires Valid() && Quiet()
      ensures graph.nodes[0].agg.total == Total(g, last, TRACE_IDS)
    {
      assert Pending(g, graph.nodes, graph.postponed) == Zeros(g, |graph.nodes|);
      RootTotalIsPosted(g, graph.nodes, graph.edges, graph.frames, graph.posted);
    }

    // Snapshots that are not newer than the newest one seen are skipped
    method Process(snapshot: Snapshot<T>) returns (skipped: bool)
      requires Valid() && Quiet() && InRange(snapshot)
      modifies this, graph
      ensures Valid() && Quiet()
      ensures skipped <==> snapshot.timestamp <= old(lastTimestamp)
      ensures skipped ==> unchanged(this) && unchanged(graph)
      ensures !skipped ==> lastTimestamp == snapshot.timestamp
      ensures !skipped ==> table == ApplyPtrs(old(table), snapshot.ptrs)
      ensures !skipped ==> located == ApplyStacks(sym, table, old(located), snapshot.stacks)
      ensures !skipped ==> last == ApplyChanged(old(last), snapshot.changed)
      ensures !skipped ==> posts == old(posts) + PostsOf(g, located, old(last), snapshot.changed)
      ensures !skipped ==>
        paths == old(paths) + StackPaths(sym, table, snapshot.stacks) + UnknownPaths(located, snapshot.changed)
      ensures |graph.nodes| > 0 && graph.nodes[0].agg.total == Total(g, last, TRACE_IDS)
    {
      if snapshot.timestamp <= lastTimestamp {
        skipped := true;
        RootIsTotal();
        return;
      }
      skipped := false;
      lastTimestamp := snapshot.timestamp;
      ProcessStacktraces(snapshot.ptrs, snapshot.stacks);
      ProcessAllocations(snapshot.changed);
      var newLeaves, changedFrames, changedSelf := ProcessModifications();
      RootIsTotal();
    }

    lemma IsTraced()
      requires Valid() && Quiet()
      ensures Traced(g, graph.nodes, graph.edges, graph.frames, graph.posted, posts, leaves)
    {
      assert Pending(g, graph.nodes, graph.postponed) == Zeros(g, |graph.nodes|);
    }

    // What a node holds itself is everything posted under its path, and its total is
    // everything posted under its path and the paths that extend it
    lemma NodeIsPosts(i: nat)
      requires Valid() && Quiet() && i < |graph.nodes|
      ensures Own(g, graph.nodes[i].agg) == PostedIn(g, posts, At(Trace(graph.nodes, graph.edges, i)))
      ensures graph.nodes[i].agg.total == PostedIn(g, posts, Under(Trace(graph.nodes, graph.edges, i)))
    {
      IsTraced();
      OwnsAreShares(g, graph.nodes, graph.edges, graph.frames, graph.posted, posts, leaves);
      assert Owns(g, graph.nodes)[i] == Own(g, graph.nodes[i].agg);
      Attribution.TotalIsPosts(g, graph.nodes, graph.edges, graph.frames, graph.posted, posts, leaves, i);
    }

    // A frame's total is everything posted under paths that contain it, its own value everything
    // posted under paths that end with it as new
    lemma FrameIsPosts(f: Frame)
      requires Valid() && Quiet()
      ensures FrameTotal(g, graph.frames, f) == TotalBy(g, f, PostSum(g, posts))
      ensures FrameOwn(g, graph.frames, f) == OwnBy(g, f, PostSum(g, posts))
    {
      IsTraced();
      FrameTotalIsPosts(g, graph.nodes, graph.edges, graph.frames, graph.posted, posts, leaves, f);
      FrameOwnIsPosts(g, graph.nodes, graph.edges, graph.frames, graph.posted, posts, leaves, f);
    }

    // As long as symbolization never yields the root's frame id, the root's frame has the root's total
    lemma RootFrameIsRoot()
      requires Valid() && Quiet() && Rootless(sym)
      ensures RootFrameReserved(graph.nodes)
      ensures FrameTotal(g, graph.frames, ROOT_FRAME) == graph.nodes[0].agg.total
    {
      IsTraced();
      SpannedIsReserved(graph.nodes, graph.edges, paths);
      ReservedAgrees(g, graph.nodes, graph.edges, graph.frames, graph.posted, Zeros(g, |graph.nodes|));
    }
  }

  // ----- reading files

  // What the reader has learnt and accounted
  datatype Accounts<T> = Accounts(
    table: map<nat, nat>, located: map<nat, seq<Frame>>, last: map<nat, T>, posts: seq<Post<T>>, paths: set<seq<Frame>>)

  // What one snapshot does to the accounts
  ghost predicate AccountStep<T(!new)>(g: Group<T>, sym: nat -> seq<Frame>, a: Accounts<T>, m: Snapshot<T>,
                                       b: Accounts<T>) {
    var table := ApplyPtrs(a.table, m.ptrs);
    var located := ApplyStacks(sym, table, a.located, m.stacks);
    b == Accounts(
      table, located, ApplyChanged(a.last, m.changed), a.posts + PostsOf(g, located, a.last, m.changed),
      a.paths + StackPaths(sym, table, m.stacks) + UnknownPaths(located, m.changed))
  }

  ghost function Stepping<T(!new)>(g: Group<T>, sym: nat -> seq<Frame>): (r: Step<Accounts<T>, Snapshot<T>>) {
    (a: Accounts<T>, m: Snapshot<T>, b: Accounts<T>) => AccountStep(g, sym, a, m, b)
  }

  ghost function NoAccounts<T(!new)>(): (r: Gated<Accounts<T>>) {
    Gated(Accounts(map[], map[], map[], [], {}), 0)
  }

  ghost function Stamp<T(!new)>(): (r: Snapshot<T> -> nat) {
    (m: Snapshot<T>) => m.timestamp
  }

  ghost function StateOf<T(!new)>(reader: Processor<T>): (r: Gated<Accounts<T>>)
    reads reader
  {
    Gated(Accounts(reader.table, reader.located, reader.last, reader.posts, reader.paths), reader.lastTimestamp)
  }

  method ReadFile<T(!new)>(reader: Processor<T>, file: seq<Snapshot<T>>)
    requires reader.Valid() && reader.Quiet() && forall m :: m in file ==> InRange(m)
    modifies reader, reader.graph
    ensures reader.Valid() && reader.Quiet()
    ensures Reads(Stepping(reader.g, reader.sym), Stamp(), old(StateOf(reader)), file, StateOf(reader))
    decreases |file|
  {
    if file != [] {
      ghost var before := StateOf(reader);
      var skipped := reader.Process(file[0]);
      assert Gate(Stepping(reader.g, reader.sym), Stamp(), before, file[0], StateOf(reader));
      ReadFile(reader, file[1..]);
    }
  }

  // Saves a processor and restores it into a new one
  method Reopen<T(!new)>(first: Processor<T>) returns (second: Processor<T>)
    requires first.Valid() && first.Quiet()
    ensures fresh(second) && fresh(second.graph) && second.g == first.g && second.sym == first.sym
    ensures second.Saved() == first.Saved() && StateOf(second) == StateOf(first)
    ensures second.Valid() && second.Quiet()
  {
    second := new Processor.Restore(first.g, first.sym, first.Saved(), first);
    assert second.graph.Saved() == first.graph.Saved();
  }

  method ReadNew<T(!new)>(g: Group<T>, sym: nat -> seq<Frame>, file: seq<Snapshot<T>>) returns (reader: Processor<T>)
    requires Lawful(g) && forall m :: m in file ==> InRange(m)
    ensures fresh(reader) && fresh(reader.graph) && reader.g == g && reader.sym == sym
    ensures reader.Valid() && reader.Quiet()
    ensures Reads(Stepping(g, sym), Stamp(), NoAccounts(), file, StateOf(reader))
  {
    reader := new Processor(g, sym);
    ReadFile(reader, file);
  }

  // ----- equal readings give equal graphs

  // A node of b has the same path, key, marks, own value and total
  ghost predicate HasTwin<T(!new)>(a: Graph<T>, i: nat, b: Graph<T>)
    requires Shaped(a.nodes, a.edges) && Shaped(b.nodes, b.edges) && i < |a.nodes|
    reads a, b
  {
    exists j: nat :: j < |b.nodes| && SameNode(a.g, a.nodes, a.edges, i, b.nodes, b.edges, j)
  }

  // Two graphs that differ at most in the numbers of their nodes
  ghost predicate SameGraph<T(!new)>(a: Graph<T>, b: Graph<T>)
    reads a, b
  {
    && a.g == b.g && a.Valid() && b.Valid()
    && (forall i: nat :: i < |a.nodes| ==> HasTwin(a, i, b))
    && (forall j: nat :: j < |b.nodes| ==> HasTwin(b, j, a))
    && (forall f :: FrameOwn(a.g, a.frames, f) == FrameOwn(b.g, b.frames, f))
    && (forall f :: FrameTotal(a.g, a.frames, f) == FrameTotal(b.g, b.frames, f))
  }

  lemma TwinOf<T(!new)>(a: Processor<T>, b: Processor<T>, i: nat)
    requires a.Valid() && a.Quiet() && b.Valid() && b.Quiet() && a.g == b.g
    requires StateOf(a) == StateOf(b) && i < |a.graph.nodes|
    ensures HasTwin(a.graph, i, b.graph)
  {
    a.IsTraced();
    b.IsTraced();
    var x, y := a.graph, b.graph;
    var j := SamePostsSameNodes(a.g, a.posts, a.paths, x.nodes, x.edges, x.frames, x.posted, a.leaves,
                                y.nodes, y.edges, y.frames, y.posted, b.leaves, i);
    assert SameNode(x.g, x.nodes, x.edges, i, y.nodes, y.edges, j);
  }

  // The accounts determine the graph
  lemma SameAccountsSameGraph<T(!new)>(a: Processor<T>, b: Processor<T>)
    requires a.Valid() && a.Quiet() && b.Valid() && b.Quiet() && a.g == b.g && StateOf(a) == StateOf(b)
    ensures SameGraph(a.graph, b.graph)
  {
    forall i: nat | i < |a.graph.nodes| ensures HasTwin(a.graph, i, b.graph) {
      TwinOf(a, b, i);
    }
    forall j: nat | j < |b.graph.nodes| ensures HasTwin(b.graph, j, a.graph) {
      TwinOf(b, a, j);
    }
    forall f ensures FrameOwn(a.g, a.graph.frames, f) == FrameOwn(b.g, b.graph.frames, f)
    {
      a.FrameIsPosts(f);
      b.FrameIsPosts(f);
    }
    forall f ensures FrameTotal(a.g, a.graph.frames, f) == FrameTotal(b.g, b.graph.frames, f)
    {
      a.FrameIsPosts(f);
      b.FrameIsPosts(f);
    }
  }

  // Two readings of a file from the start give the same accounts and the same graph
  lemma SameFileSameGraph<T(!new)>(a: Processor<T>, b: Processor<T>, file: seq<Snapshot<T>>)
    requires a.Valid() && a.Quiet() && b.Valid() && b.Quiet() && a.g == b.g && a.sym == b.sym
    requires Reads(Stepping(a.g, a.sym), Stamp(), NoAccounts(), file, StateOf(a))
    requires Reads(Stepping(a.g, a.sym), Stamp(), NoAccounts(), file, StateOf(b))
    ensures StateOf(a) == StateOf(b) && SameGraph(a.graph, b.graph)
  {
    SameReading(Stepping(a.g, a.sym), Stamp(), NoAccounts(), file, StateOf(a), StateOf(b));
    SameAccountsSameGraph(a, b);
  }

  // Read part of a file, save, restore into a new processor and read the whole
  // file: the accounts are those of one uninterrupted reading
  method ReadWithRestart<T(!new)>(g: Group<T>, sym: nat -> seq<Frame>, x: seq<Snapshot<T>>, y: seq<Snapshot<T>>)
    returns (second: Processor<T>)
    requires Lawful(g) && (forall m :: m in x ==> InRange(m)) && (forall m :: m in x + y ==> InRange(m))
    ensures fresh(second) && fresh(second.graph) && second.g == g && second.sym == sym
    ensures second.Valid() && second.Quiet()
    ensures Reads(Stepping(g, sym), Stamp(), NoAccounts(), x + y, StateOf(second))
  {
    var first := ReadNew(g, sym, x);
    second := Reopen(first);
    ghost var saved := StateOf(second);
    ReadFile(second, x + y);
    RestartLeadsOn(Stepping(g, sym), Stamp(), NoAccounts(), x, y, saved, StateOf(second));
  }

  // Stopping, saving and restoring leaves the same accounts and the same graph as reading without a stop
  method CompareRestart<T(!new)>(g: Group<T>, sym: nat -> seq<Frame>, x: seq<Snapshot<T>>, y: seq<Snapshot<T>>)
    returns (once: Processor<T>, twice: Processor<T>)
    requires Lawful(g) && (forall m :: m in x ==> InRange(m)) && (forall m :: m in x + y ==> InRange(m))
    ensures once.Valid() && once.Quiet() && twice.Valid() && twice.Quiet()
    ensures StateOf(once) == StateOf(twice) && SameGraph(once.graph, twice.graph)
  {
    once := ReadNew(g, sym, x + y);
    twice := ReadWithRestart(g, sym, x, y);
    SameFileSameGraph(once, twice, x + y);
  }
}
