/**
 Differences against cumulative values: as long as the path of a trace is fixed
 before its first value arrives, the differences posted under any set of paths
 add up to the last values of the traces that have those paths.
 */
module Telescoping {
  import opened Groups
  import opened Tallies
  import opened CallTree
  import opened CallGraph
  import opened Snapshots
  import opened Attribution
  import opened Reader

  // The traces whose paths are in a region
  ghost function Inside(located: map<nat, seq<Frame>>, r: Region): (keep: nat -> bool) {
    (t: nat) => In(r, PathOf(located, t))
  }

  ghost predicate TelescopedAt<T>(g: Group<T>, located: map<nat, seq<Frame>>, last: map<nat, T>, posts: seq<Post<T>>,
                                  r: Region) {
    PostedIn(g, posts, r) == Total(g, Only(last, Inside(located, r)), TRACE_IDS)
  }

  ghost predicate Telescoped<T>(g: Group<T>, located: map<nat, seq<Frame>>, last: map<nat, T>, posts: seq<Post<T>>) {
    forall r :: TelescopedAt(g, located, last, posts, r)
  }

  // No stack is for one of these traces
  ghost predicate StacksAvoid(stacks: seq<Stack>, traces: set<nat>) {
    forall s :: s in stacks ==> s.traceId !in traces
  }

  lemma {:induction false} PathKept(sym: nat -> seq<Frame>, table: map<nat, nat>, located: map<nat, seq<Frame>>,
                                    stacks: seq<Stack>, t: nat)
    requires StacksAvoid(stacks, {t})
    ensures var after := ApplyStacks(sym, table, located, stacks);
      PathOf(after, t) == PathOf(located, t) && (t in after <==> t in located)
    decreases |stacks|
  {
    if stacks != [] {
      assert stacks[|stacks| - 1] in stacks;
      PathKept(sym, table, located, stacks[..|stacks| - 1], t);
    }
  }

  lemma StacksKeep<T(!new)>(g: Group<T>, sym: nat -> seq<Frame>, table: map<nat, nat>, located: map<nat, seq<Frame>>,
                            stacks: seq<Stack>, last: map<nat, T>, posts: seq<Post<T>>)
    requires Telescoped(g, located, last, posts) && StacksAvoid(stacks, last.Keys)
    ensures Telescoped(g, ApplyStacks(sym, table, located, stacks), last, posts)
  {
    var after := ApplyStacks(sym, table, located, stacks);
    forall r ensures TelescopedAt(g, after, last, posts, r) {
      assert TelescopedAt(g, located, last, posts, r);
      forall t | t in last ensures PathOf(after, t) == PathOf(located, t) {
        PathKept(sym, table, located, stacks, t);
      }
      OnlySame(last, Inside(after, r), Inside(located, r));
    }
  }

  lemma ValueKeeps<T(!new)>(g: Group<T>, located: map<nat, seq<Frame>>, last: map<nat, T>, posts: seq<Post<T>>, t: nat,
                            v: T)
    requires Lawful(g) && Telescoped(g, located, last, posts) && t < TRACE_IDS
    ensures Telescoped(g, located, last[t := v], posts + [Post(PathOf(located, t), Minus(g, v, Get(g, last, t)))])
  {
    var p := Post(PathOf(located, t), Minus(g, v, Get(g, last, t)));
    var newLast, newPosts := last[t := v], posts + [p];
    forall r ensures TelescopedAt(g, located, newLast, newPosts, r) {
      assert TelescopedAt(g, located, last, posts, r);
      PostedNext(g, posts, p, r);
      var before, after := Only(last, Inside(located, r)), Only(newLast, Inside(located, r));
      if In(r, p.path) {
        assert after == before[t := v];
        TotalSet(g, before, t, v, TRACE_IDS);
      } else {
        assert after == before;
      }
    }
  }

  lemma {:induction false} ValuesKeep<T(!new)>(g: Group<T>, located: map<nat, seq<Frame>>, last: map<nat, T>,
                                               posts: seq<Post<T>>,
                                               changed: seq<Changed<T>>)
    requires Lawful(g) && Telescoped(g, located, last, posts) && forall c :: c in changed ==> c.traceId < TRACE_IDS
    ensures Telescoped(g, located, ApplyChanged(last, changed), posts + PostsOf(g, located, last, changed))
    decreases |changed|
  {
    if changed == [] {
      assert posts + PostsOf(g, located, last, changed) == posts;
    } else {
      var n := |changed| - 1;
      var c, init := changed[n], changed[..n];
      assert c in changed;
      ValuesKeep(g, located, last, posts, init);
      var before := posts + PostsOf(g, located, last, init);
      if c.actual.Some? {
        ValueKeeps(g, located, ApplyChanged(last, init), before, c.traceId, c.actual.value);
        var diff := Minus(g, c.actual.value, Get(g, ApplyChanged(last, init), c.traceId));
        var p := Post(PathOf(located, c.traceId), diff);
        assert posts + PostsOf(g, located, last, changed) == before + [p];
      } else {
        assert posts + PostsOf(g, located, last, changed) == before;
      }
    }
  }

  // A snapshot whose stacks are only for traces without a value so far keeps the sums
  lemma SnapshotKeeps<T(!new)>(g: Group<T>, sym: nat -> seq<Frame>, a: Accounts<T>, m: Snapshot<T>, b: Accounts<T>)
    requires Lawful(g) && InRange(m) && AccountStep(g, sym, a, m, b)
    requires Telescoped(g, a.located, a.last, a.posts) && StacksAvoid(m.stacks, a.last.Keys)
    ensures Telescoped(g, b.located, b.last, b.posts)
  {
    StacksKeep(g, sym, b.table, a.located, m.stacks, a.last, a.posts);
    ValuesKeep(g, b.located, a.last, a.posts, m.changed);
  }

  // Every node's own value and total, and every frame's, in terms of the last values of the traces
  lemma NodeIsTraces<T(!new)>(reader: Processor<T>, i: nat)
    requires reader.Valid() && reader.Quiet() && i < |reader.graph.nodes|
    requires Telescoped(reader.g, reader.located, reader.last, reader.posts)
    ensures var node, path := reader.graph.nodes[i], Trace(reader.graph.nodes, reader.graph.edges, i);
      && Own(reader.g, node.agg) == Total(reader.g, Only(reader.last, Inside(reader.located, At(path))), TRACE_IDS)
      && node.agg.total == Total(reader.g, Only(reader.last, Inside(reader.located, Under(path))), TRACE_IDS)
  {
    var path := Trace(reader.graph.nodes, reader.graph.edges, i);
    reader.NodeIsPosts(i);
    assert TelescopedAt(reader.g, reader.located, reader.last, reader.posts, At(path));
    assert TelescopedAt(reader.g, reader.located, reader.last, reader.posts, Under(path));
  }

  // The sums of the last values of the traces
  ghost function TraceSum<T>(g: Group<T>, located: map<nat, seq<Frame>>, last: map<nat, T>): (sum: Region -> T) {
    (r: Region) => Total(g, Only(last, Inside(located, r)), TRACE_IDS)
  }

  lemma FrameIsTraces<T(!new)>(reader: Processor<T>, f: Frame)
    requires reader.Valid() && reader.Quiet()
    requires Telescoped(reader.g, reader.located, reader.last, reader.posts)
    ensures FrameTotal(reader.g, reader.graph.frames, f)
      == TotalBy(reader.g, f, TraceSum(reader.g, reader.located, reader.last))
    ensures FrameOwn(reader.g, reader.graph.frames, f)
      == OwnBy(reader.g, f, TraceSum(reader.g, reader.located, reader.last))
  {
    reader.FrameIsPosts(f);
    forall r ensures PostSum(reader.g, reader.posts)(r) == TraceSum(reader.g, reader.located, reader.last)(r) {
      assert TelescopedAt(reader.g, reader.located, reader.last, reader.posts, r);
    }
  }
}
