/**
 The frame id of the root. The root carries it too, so a path that contains it
 is counted by the frame's total once more. The total is right for all values
 exactly when no path uses the id.
 */
module RootFrame {
  import opened Groups
  import opened TreeSums
  import opened CallTree
  import opened CallGraph
  import opened CallTheorems

  // The total of the root's frame is that of the root
  ghost predicate RootFrameAgrees<T>(g: Group<T>, nodes: seq<GraphNode<T>>, frames: map<Frame, Aggregate<T>>)
    requires |nodes| > 0
  {
    FrameTotal(g, frames, ROOT_FRAME) == nodes[0].agg.total
  }

  lemma {:induction false} ReservedTrace<T>(nodes: seq<GraphNode<T>>, edges: map<Edge, nat>, j: nat)
    requires Shaped(nodes, edges) && RootFrameReserved(nodes) && j < |nodes|
    ensures ROOT_FRAME !in Trace(nodes, edges, j)
    decreases j
  {
    if j > 0 {
      assert NodeOk(nodes, edges, j);
      ReservedTrace(nodes, edges, nodes[j].parent);
    }
  }

  // No node has the root's id exactly when no path contains it
  lemma ReservedIff<T>(nodes: seq<GraphNode<T>>, edges: map<Edge, nat>)
    requires Shaped(nodes, edges)
    ensures RootFrameReserved(nodes) <==> forall j :: 0 <= j < |nodes| ==> ROOT_FRAME !in Trace(nodes, edges, j)
  {
    if RootFrameReserved(nodes) {
      forall j | 0 <= j < |nodes| ensures ROOT_FRAME !in Trace(nodes, edges, j) {
        ReservedTrace(nodes, edges, j);
      }
    } else {
      var i :| 0 < i < |nodes| && nodes[i].key == ROOT_FRAME;
      assert NodeOk(nodes, edges, i);
      assert ROOT_FRAME in Trace(nodes, edges, i);
    }
  }

  lemma ReservedAgrees<T(!new)>(g: Group<T>, nodes: seq<GraphNode<T>>, edges: map<Edge, nat>,
                                frames: map<Frame, Aggregate<T>>, posted: seq<T>, pend: seq<T>)
    requires Settled(g, nodes, edges, frames, posted, pend) && RootFrameReserved(nodes)
    ensures RootFrameAgrees(g, nodes, frames)
  {
    RootFrameExcess(g, nodes, edges, frames, posted, pend);
    var terms := Chosen(g, Owns(g, nodes), OnTrace(nodes, edges, ROOT_FRAME));
    forall j | 0 <= j < |nodes| ensures terms[j] == g.zero {
      ReservedTrace(nodes, edges, j);
    }
    SumZeros(g, terms);
    Zero(g, nodes[0].agg.total);
  }

  // ----- posting one more difference

  // A difference that has reached the own value of node i is passed up to the root
  lemma {:induction false} Climb<T(!new)>(g: Group<T>, nodes: seq<GraphNode<T>>, edges: map<Edge, nat>,
                                          frames: map<Frame, Aggregate<T>>, posted: seq<T>, i: nat, d: T)
    returns (after: seq<GraphNode<T>>, framesAfter: map<Frame, Aggregate<T>>)
    requires Shaped(nodes, edges) && Firsts(nodes, edges) && i < |nodes|
    requires Books(g, nodes, frames, posted, Zeros(g, |nodes|), Zeros(g, |nodes|)[i := d])
    ensures SameShape(nodes, after) && Owns(g, after) == Owns(g, nodes)
    ensures Settled(g, after, edges, framesAfter, posted, Zeros(g, |after|))
    decreases i
  {
    var zeros := Zeros(g, |nodes|);
    RootLevel(nodes, edges, i);
    TotalStep(g, nodes, frames, posted, zeros, zeros[i := d], i, d);
    var next := AddTotal(g, nodes, i, d);
    var framesNext := if nodes[i].first then FrameAddTotal(g, frames, nodes[i].key, d) else frames;
    ShapeKept(nodes, next, edges);
    assert Owns(g, next) == Owns(g, nodes);
    if i == 0 {
      assert PassOn(g, nodes, zeros[i := d], i) == zeros;
      after, framesAfter := next, framesNext;
    } else {
      Zero(g, d);
      assert PassOn(g, nodes, zeros[i := d], i) == zeros[nodes[i].parent := d];
      after, framesAfter := Climb(g, next, edges, framesNext, posted, nodes[i].parent, d);
    }
  }

  // Every difference can be posted to every node and propagated
  lemma PostOne<T(!new)>(g: Group<T>, nodes: seq<GraphNode<T>>, edges: map<Edge, nat>,
                         frames: map<Frame, Aggregate<T>>, posted: seq<T>, i: nat, d: T)
    returns (after: seq<GraphNode<T>>, framesAfter: map<Frame, Aggregate<T>>, postedAfter: seq<T>)
    requires Settled(g, nodes, edges, frames, posted, Zeros(g, |nodes|)) && i < |nodes|
    ensures SameShape(nodes, after) && Owns(g, after) == Owns(g, nodes)[i := g.add(Owns(g, nodes)[i], d)]
    ensures Settled(g, after, edges, framesAfter, postedAfter, Zeros(g, |after|))
  {
    var zeros := Zeros(g, |nodes|);
    postedAfter := posted[i := g.add(posted[i], d)];
    Zero(g, d);
    PostBooks(g, nodes, frames, posted, zeros, zeros, i, d);
    OwnStep(g, nodes, frames, postedAfter, zeros[i := d], zeros, i, d);
    assert zeros[i := d][i := g.zero] == zeros;
    var next := AddOwn(g, nodes, i, d);
    var framesNext := if nodes[i].first then FrameAddOwn(g, frames, nodes[i].key, d) else frames;
    ShapeKept(nodes, next, edges);
    assert Owns(g, next) == Owns(g, nodes)[i := g.add(Owns(g, nodes)[i], d)];
    after, framesAfter := Climb(g, next, edges, framesNext, postedAfter, i, d);
  }

  // ----- the exact condition

  lemma ExcessMoves<T(!new)>(g: Group<T>, nodes: seq<GraphNode<T>>, after: seq<GraphNode<T>>, edges: map<Edge, nat>,
                             i: nat, d: T)
    requires Lawful(g) && Shaped(nodes, edges) && Shaped(after, edges) && SameShape(nodes, after) && i < |nodes|
    requires Owns(g, after) == Owns(g, nodes)[i := g.add(Owns(g, nodes)[i], d)]
    requires ROOT_FRAME in Trace(nodes, edges, i)
    ensures Sum(g, Chosen(g, Owns(g, after), OnTrace(after, edges, ROOT_FRAME)))
      == g.add(Sum(g, Chosen(g, Owns(g, nodes), OnTrace(nodes, edges, ROOT_FRAME))), d)
  {
    ShapeKept(nodes, after, edges);
    assert OnTrace(after, edges, ROOT_FRAME) == OnTrace(nodes, edges, ROOT_FRAME);
    var flags := OnTrace(nodes, edges, ROOT_FRAME);
    SumAdd(g, Chosen(g, Owns(g, nodes), flags), Chosen(g, Owns(g, after), flags), i, d);
  }

  // Agreement means that nothing is held under paths with the root's id
  lemma AgreesIffNoExcess<T(!new)>(g: Group<T>, nodes: seq<GraphNode<T>>, edges: map<Edge, nat>,
                                   frames: map<Frame, Aggregate<T>>, posted: seq<T>, pend: seq<T>)
    requires Settled(g, nodes, edges, frames, posted, pend)
    ensures RootFrameAgrees(g, nodes, frames)
      <==> Sum(g, Chosen(g, Owns(g, nodes), OnTrace(nodes, edges, ROOT_FRAME))) == g.zero
  {
    RootFrameExcess(g, nodes, edges, frames, posted, pend);
    var excess := Sum(g, Chosen(g, Owns(g, nodes), OnTrace(nodes, edges, ROOT_FRAME)));
    Zero(g, nodes[0].agg.total);
    if RootFrameAgrees(g, nodes, frames) {
      Cancel(g, excess, g.zero, nodes[0].agg.total);
    }
  }

  // If a path uses the root's id, values exist for which the totals differ
  lemma UnreservedDiffers<T(!new)>(g: Group<T>, nodes: seq<GraphNode<T>>, edges: map<Edge, nat>,
                                   frames: map<Frame, Aggregate<T>>, posted: seq<T>, d: T)
    returns (b: seq<GraphNode<T>>, framesB: map<Frame, Aggregate<T>>, postedB: seq<T>)
    requires Settled(g, nodes, edges, frames, posted, Zeros(g, |nodes|)) && !RootFrameReserved(nodes) && d != g.zero
    ensures SameShape(nodes, b) && Settled(g, b, edges, framesB, postedB, Zeros(g, |b|))
    ensures !RootFrameAgrees(g, b, framesB)
  {
    if !RootFrameAgrees(g, nodes, frames) {
      b, framesB, postedB := nodes, frames, posted;
    } else {
      ReservedIff(nodes, edges);
      var i :| 0 <= i < |nodes| && ROOT_FRAME in Trace(nodes, edges, i);
      b, framesB, postedB := PostOne(g, nodes, edges, frames, posted, i, d);
      AgreesIffNoExcess(g, nodes, edges, frames, posted, Zeros(g, |nodes|));
      ExcessMoves(g, nodes, b, edges, i, d);
      Zero(g, d);
      AgreesIffNoExcess(g, b, edges, framesB, postedB, Zeros(g, |b|));
    }
  }

  // For all values over the graph's shape the root frame's total is the root's
  ghost predicate AlwaysAgrees<T(!new)>(g: Group<T>, nodes: seq<GraphNode<T>>, edges: map<Edge, nat>) {
    forall b, framesB, postedB {:trigger Settled(g, b, edges, framesB, postedB, Zeros(g, |b|))} ::
      Settled(g, b, edges, framesB, postedB, Zeros(g, |b|)) && SameShape(nodes, b) ==> RootFrameAgrees(g, b, framesB)
  }

  // The total is right for all values exactly when no other node has the root's frame id
  lemma RootFrameExactIff<T(!new)>(g: Group<T>, nodes: seq<GraphNode<T>>, edges: map<Edge, nat>,
                                   frames: map<Frame, Aggregate<T>>, posted: seq<T>, d: T)
    requires Settled(g, nodes, edges, frames, posted, Zeros(g, |nodes|)) && d != g.zero
    ensures RootFrameReserved(nodes) <==> AlwaysAgrees(g, nodes, edges)
  {
    if RootFrameReserved(nodes) {
      forall b, framesB, postedB {:trigger Settled(g, b, edges, framesB, postedB, Zeros(g, |b|))}
        | Settled(g, b, edges, framesB, postedB, Zeros(g, |b|)) && SameShape(nodes, b)
        ensures RootFrameAgrees(g, b, framesB)
      {
        ReservedAgrees(g, b, edges, framesB, postedB, Zeros(g, |b|));
      }
    } else {
      var b, framesB, postedB := UnreservedDiffers(g, nodes, edges, frames, posted, d);
      assert !RootFrameAgrees(g, b, framesB);
    }
  }

  // ----- a run that shows it

  // d is all that was posted, to a node with the root's id on its trace
  lemma OnePostCountsTwice<T(!new)>(g: Group<T>, nodes: seq<GraphNode<T>>, edges: map<Edge, nat>,
                                    frames: map<Frame, Aggregate<T>>, i: nat, d: T)
    requires i < |nodes| && Settled(g, nodes, edges, frames, Zeros(g, |nodes|)[i := d], Zeros(g, |nodes|))
    requires ROOT_FRAME in Trace(nodes, edges, i)
    ensures nodes[0].agg.total == d && FrameTotal(g, frames, ROOT_FRAME) == g.add(d, d)
    ensures d != g.zero ==> !RootFrameAgrees(g, nodes, frames)
  {
    var posted := Zeros(g, |nodes|)[i := d];
    RootTotalIsPosted(g, nodes, edges, frames, posted);
    SumOne(g, posted, i);
    RootFrameExcess(g, nodes, edges, frames, posted, Zeros(g, |nodes|));
    SumOne(g, Chosen(g, posted, OnTrace(nodes, edges, ROOT_FRAME)), i);
    Zero(g, d);
    if g.add(d, d) == d {
      Cancel(g, d, g.zero, d);
    }
  }

  // Posting d under the path that consists of the root's id: the root holds d, its frame twice as much
  method RootFrameCountsTwice<T(!new)>(g: Group<T>, d: T) returns (graph: Graph<T>)
    requires Lawful(g)
    ensures graph.Valid() && graph.g == g && graph.postponed == map[]
    ensures graph.nodes[0].agg.total == d && FrameTotal(g, graph.frames, ROOT_FRAME) == g.add(d, d)
    ensures d != g.zero ==> !RootFrameAgrees(g, graph.nodes, graph.frames)
  {
    graph := new Graph(g);
    var id := graph.ConstructPath([ROOT_FRAME]);
    assert graph.posted == Zeros(g, |graph.nodes|);
    ghost var nodes := graph.nodes;
    graph.PostponeDiffUpdate(id, d);
    Zero(g, d);
    ghost var posted := Zeros(g, |nodes|)[id := d];
    assert graph.posted == posted;
    graph.ProcessPostponedUpdates();
    ShapeKept(nodes, graph.nodes, graph.edges);
    assert Pending(g, graph.nodes, graph.postponed) == Zeros(g, |graph.nodes|);
    OnePostCountsTwice(g, graph.nodes, graph.edges, graph.frames, id, d);
  }
}
