/**
 What the books of the call graph amount to: subtree totals, frame totals
 without double counting, and independence from the batching of updates.
 */
module CallTheorems {
  import opened Groups
  import opened TreeSums
  import opened CallTree
  import opened CallGraph

  // The books of a graph between operations
  ghost predicate Settled<T(!new)>(g: Group<T>, nodes: seq<GraphNode<T>>, edges: map<Edge, nat>,
                            frames: map<Frame, Aggregate<T>>, posted: seq<T>, pend: seq<T>) {
    && Shaped(nodes, edges) && Firsts(nodes, edges)
    && Books(g, nodes, frames, posted, pend, Zeros(g, |nodes|))
  }

  lemma SettledIsLocal<T(!new)>(g: Group<T>, nodes: seq<GraphNode<T>>, edges: map<Edge, nat>,
                         frames: map<Frame, Aggregate<T>>, posted: seq<T>, pend: seq<T>)
    requires Settled(g, nodes, edges, frames, posted, pend)
    ensures Ordered(Par(nodes)) && Local(g, Par(nodes), Owns(g, nodes), Tots(nodes))
  {
    ShapeIsOrdered(nodes, edges);
    forall i | 0 <= i < |nodes| ensures LocalAt(g, Par(nodes), Owns(g, nodes), Tots(nodes), i) {
      assert BalancedAt(g, nodes, Zeros(g, |nodes|), i);
      Zero(g, nodes[i].agg.total);
    }
  }

  // Each node's total is the sum of the own values in its subtree, the root included once
  lemma TotalIsSubtreeSum<T(!new)>(g: Group<T>, nodes: seq<GraphNode<T>>, edges: map<Edge, nat>,
                            frames: map<Frame, Aggregate<T>>, posted: seq<T>, pend: seq<T>, i: nat)
    requires Settled(g, nodes, edges, frames, posted, pend) && i < |nodes|
    ensures Ordered(Par(nodes))
    ensures nodes[i].agg.total == Sum(g, SubtreeTerms(g, Par(nodes), Owns(g, nodes), i))
  {
    SettledIsLocal(g, nodes, edges, frames, posted, pend);
    SubtreeSum(g, Par(nodes), Owns(g, nodes), Tots(nodes), i);
  }

  lemma OwnIsPosted<T(!new)>(g: Group<T>, nodes: seq<GraphNode<T>>, edges: map<Edge, nat>,
                      frames: map<Frame, Aggregate<T>>, posted: seq<T>)
    requires Settled(g, nodes, edges, frames, posted, Zeros(g, |nodes|))
    ensures Owns(g, nodes) == posted
  {
    forall i | 0 <= i < |nodes| ensures Owns(g, nodes)[i] == posted[i] {
      assert PostedAt(g, nodes, posted, Zeros(g, |nodes|), i);
      Zero(g, Own(g, nodes[i].agg));
    }
  }

  // The root's total is the sum of everything ever posted, once nothing is pending
  lemma RootTotalIsPosted<T(!new)>(g: Group<T>, nodes: seq<GraphNode<T>>, edges: map<Edge, nat>,
                            frames: map<Frame, Aggregate<T>>, posted: seq<T>)
    requires Settled(g, nodes, edges, frames, posted, Zeros(g, |nodes|))
    ensures Owns(g, nodes) == posted
    ensures nodes[0].agg.total == Sum(g, posted)
  {
    OwnIsPosted(g, nodes, edges, frames, posted);
    TotalIsSubtreeSum(g, nodes, edges, frames, posted, Zeros(g, |nodes|), 0);
    var terms := SubtreeTerms(g, Par(nodes), Owns(g, nodes), 0);
    forall j | 0 <= j < |nodes| ensures terms[j] == posted[j] {
      RootHasAll(Par(nodes), j);
    }
    assert terms == posted;
  }

  // ----- frames

  // The path to j, the root included, contains frame f
  ghost function OnPath<T>(nodes: seq<GraphNode<T>>, edges: map<Edge, nat>, f: Frame): (r: seq<bool>)
    requires Shaped(nodes, edges)
    ensures |r| == |nodes|
    ensures forall j :: 0 <= j < |nodes| ==> r[j] == (f == ROOT_FRAME || f in Trace(nodes, edges, j))
  {
    seq(|nodes|, j requires 0 <= j < |nodes| => f == ROOT_FRAME || f in Trace(nodes, edges, j))
  }

  // The root's frame id is not used by any other node
  ghost predicate RootFrameReserved<T>(nodes: seq<GraphNode<T>>) {
    forall i :: 0 < i < |nodes| ==> nodes[i].key != ROOT_FRAME
  }

  lemma FirstsAreHeads<T(!new)>(nodes: seq<GraphNode<T>>, edges: map<Edge, nat>, f: Frame)
    requires Shaped(nodes, edges) && Firsts(nodes, edges)
    requires f != ROOT_FRAME || RootFrameReserved(nodes)
    ensures Heads(Par(nodes), OnPath(nodes, edges, f), HeadFlags(nodes, f))
  {
    ShapeIsOrdered(nodes, edges);
    var par, has, head := Par(nodes), OnPath(nodes, edges, f), HeadFlags(nodes, f);
    forall j | 0 < j < |nodes| ensures has[j] == (has[par[j]] || head[j]) && !(has[par[j]] && head[j]) {
      assert NodeOk(nodes, edges, j) && FirstOk(nodes, edges, j);
    }
  }

  // A frame's total counts the own value of every node whose path contains the frame,
  // and counts it once however often the frame recurs on the path
  lemma FrameTotalIsPathSum<T(!new)>(g: Group<T>, nodes: seq<GraphNode<T>>, edges: map<Edge, nat>,
                              frames: map<Frame, Aggregate<T>>, posted: seq<T>, pend: seq<T>, f: Frame)
    requires Settled(g, nodes, edges, frames, posted, pend)
    requires f != ROOT_FRAME || RootFrameReserved(nodes)
    ensures FrameTotal(g, frames, f) == Sum(g, Chosen(g, Owns(g, nodes), OnPath(nodes, edges, f)))
  {
    SettledIsLocal(g, nodes, edges, frames, posted, pend);
    FirstsAreHeads(nodes, edges, f);
    HeadSum(g, Par(nodes), Owns(g, nodes), Tots(nodes), OnPath(nodes, edges, f), HeadFlags(nodes, f));
    assert FrameOk(g, nodes, frames, f);
  }

  // The trace of j, which leaves the root out, contains frame f
  ghost function OnTrace<T>(nodes: seq<GraphNode<T>>, edges: map<Edge, nat>, f: Frame): (r: seq<bool>)
    requires Shaped(nodes, edges)
    ensures |r| == |nodes|
    ensures forall j :: 0 <= j < |nodes| ==> r[j] == (f in Trace(nodes, edges, j))
  {
    seq(|nodes|, j requires 0 <= j < |nodes| => f in Trace(nodes, edges, j))
  }

  lemma HeadsBelowRoot<T(!new)>(nodes: seq<GraphNode<T>>, edges: map<Edge, nat>, f: Frame)
    requires Shaped(nodes, edges) && Firsts(nodes, edges)
    ensures Heads(Par(nodes), OnTrace(nodes, edges, f), HeadFlags(nodes, f)[0 := false])
  {
    ShapeIsOrdered(nodes, edges);
    var par, has, head := Par(nodes), OnTrace(nodes, edges, f), HeadFlags(nodes, f)[0 := false];
    forall j | 0 < j < |nodes| ensures has[j] == (has[par[j]] || head[j]) && !(has[par[j]] && head[j]) {
      assert NodeOk(nodes, edges, j) && FirstOk(nodes, edges, j);
    }
  }

  // The root frame's total exceeds the root's by the own values of the nodes with the root's frame id on their trace
  lemma RootFrameExcess<T(!new)>(g: Group<T>, nodes: seq<GraphNode<T>>, edges: map<Edge, nat>,
                          frames: map<Frame, Aggregate<T>>, posted: seq<T>, pend: seq<T>)
    requires Settled(g, nodes, edges, frames, posted, pend)
    ensures FrameTotal(g, frames, ROOT_FRAME)
      == g.add(Sum(g, Chosen(g, Owns(g, nodes), OnTrace(nodes, edges, ROOT_FRAME))), nodes[0].agg.total)
  {
    assert FrameOk(g, nodes, frames, ROOT_FRAME);
    var flags := HeadFlags(nodes, ROOT_FRAME);
    var a, b := Chosen(g, Tots(nodes), flags[0 := false]), Chosen(g, Tots(nodes), flags);
    Zero(g, nodes[0].agg.total);
    SumAdd(g, a, b, 0, nodes[0].agg.total);
    SettledIsLocal(g, nodes, edges, frames, posted, pend);
    HeadsBelowRoot(nodes, edges, ROOT_FRAME);
    HeadSum(g, Par(nodes), Owns(g, nodes), Tots(nodes), OnTrace(nodes, edges, ROOT_FRAME), flags[0 := false]);
  }

  // ----- batching

  lemma {:induction false} LocalTotalsAreUnique<T(!new)>(g: Group<T>, par: seq<nat>, own: seq<T>, tot: seq<T>,
                                                         other: seq<T>, i: nat)
    requires Lawful(g) && Ordered(par) && Local(g, par, own, tot) && Local(g, par, own, other) && i < |par|
    ensures tot[i] == other[i]
  {
    SubtreeSum(g, par, own, tot, i);
    SubtreeSum(g, par, own, other, i);
  }

  // Two graphs over the same tree to which the same sums were posted agree on
  // every counter, however the postings were split up, ordered and processed
  lemma BatchingDoesNotMatter<T(!new)>(g: Group<T>, edges: map<Edge, nat>, posted: seq<T>,
                                a: seq<GraphNode<T>>, framesA: map<Frame, Aggregate<T>>,
                                b: seq<GraphNode<T>>, framesB: map<Frame, Aggregate<T>>)
    requires Settled(g, a, edges, framesA, posted, Zeros(g, |a|))
    requires Settled(g, b, edges, framesB, posted, Zeros(g, |b|))
    requires |a| == |b| && forall i :: 0 <= i < |a| ==> b[i] == a[i].(agg := b[i].agg, isLeaf := b[i].isLeaf)
    ensures forall i :: 0 <= i < |a| ==> Own(g, a[i].agg) == Own(g, b[i].agg) && a[i].agg.total == b[i].agg.total
    ensures forall f ::
      FrameOwn(g, framesA, f) == FrameOwn(g, framesB, f) && FrameTotal(g, framesA, f) == FrameTotal(g, framesB, f)
  {
    OwnIsPosted(g, a, edges, framesA, posted);
    OwnIsPosted(g, b, edges, framesB, posted);
    SettledIsLocal(g, a, edges, framesA, posted, Zeros(g, |a|));
    SettledIsLocal(g, b, edges, framesB, posted, Zeros(g, |b|));
    assert Par(a) == Par(b);
    forall i | 0 <= i < |a| ensures Tots(a)[i] == Tots(b)[i] {
      LocalTotalsAreUnique(g, Par(a), posted, Tots(a), Tots(b), i);
    }
    assert Tots(a) == Tots(b);
    forall f
      ensures FrameOwn(g, framesA, f) == FrameOwn(g, framesB, f) && FrameTotal(g, framesA, f) == FrameTotal(g, framesB, f)
    {
      assert HeadFlags(a, f) == HeadFlags(b, f);
      assert FrameOk(g, a, framesA, f) && FrameOk(g, b, framesB, f);
    }
  }
}
