/**
 Own values of frames. A difference posted under a path that ends with a frame
 counts for the frame only if the frame is not on the path before. The own
 value is the sum of everything posted under paths that end with the frame,
 for all values, exactly when no interned path contains the frame twice.
 */
module RecurringFrames {
  import opened Groups
  import opened TreeSums
  import opened CallTree
  import opened CallGraph
  import opened CallTheorems
  import opened RootFrame
  import opened Attribution
  import opened Reader

  // The nodes of a frame, and those that are not its first on their path
  ghost function EndFlags<T>(nodes: seq<GraphNode<T>>, f: Frame): (r: seq<bool>)
    ensures |r| == |nodes| && forall i :: 0 <= i < |nodes| ==> r[i] == (nodes[i].key == f)
  {
    seq(|nodes|, i requires 0 <= i < |nodes| => nodes[i].key == f)
  }

  ghost function AgainFlags<T>(nodes: seq<GraphNode<T>>, f: Frame): (r: seq<bool>)
    ensures |r| == |nodes| && forall i :: 0 <= i < |nodes| ==> r[i] == (nodes[i].key == f && !nodes[i].first)
  {
    seq(|nodes|, i requires 0 <= i < |nodes| => nodes[i].key == f && !nodes[i].first)
  }

  // What the nodes of a frame hold, and what those of them hold that are not first
  ghost function Held<T>(g: Group<T>, nodes: seq<GraphNode<T>>, f: Frame): (r: T) {
    Sum(g, Chosen(g, Owns(g, nodes), EndFlags(nodes, f)))
  }

  ghost function HeldAgain<T>(g: Group<T>, nodes: seq<GraphNode<T>>, f: Frame): (r: T) {
    Sum(g, Chosen(g, Owns(g, nodes), AgainFlags(nodes, f)))
  }

  ghost predicate OwnIsHeld<T>(g: Group<T>, nodes: seq<GraphNode<T>>, frames: map<Frame, Aggregate<T>>, f: Frame) {
    FrameOwn(g, frames, f) == Held(g, nodes, f)
  }

  // What a frame's own value lacks
  lemma OwnLacks<T(!new)>(g: Group<T>, nodes: seq<GraphNode<T>>, edges: map<Edge, nat>,
                          frames: map<Frame, Aggregate<T>>, posted: seq<T>, pend: seq<T>, f: Frame)
    requires Settled(g, nodes, edges, frames, posted, pend)
    ensures Held(g, nodes, f) == g.add(FrameOwn(g, frames, f), HeldAgain(g, nodes, f))
    ensures OwnIsHeld(g, nodes, frames, f) <==> HeldAgain(g, nodes, f) == g.zero
  {
    var own := Owns(g, nodes);
    var first, again := Chosen(g, own, HeadFlags(nodes, f)), Chosen(g, own, AgainFlags(nodes, f));
    forall i | 0 <= i < |nodes| ensures Chosen(g, own, EndFlags(nodes, f))[i] == g.add(first[i], again[i]) {
      Zero(g, own[i]);
      Zero(g, g.zero);
    }
    SumPairs(g, first, again, Chosen(g, own, EndFlags(nodes, f)));
    assert FrameOk(g, nodes, frames, f);
    var x, missing := FrameOwn(g, frames, f), HeldAgain(g, nodes, f);
    Zero(g, x);
    if g.add(x, missing) == x {
      Comm(g, x, missing);
      Cancel(g, missing, g.zero, x);
    }
  }

  // Every node of the frame is its first on the path
  ghost predicate OnlyFirst<T>(nodes: seq<GraphNode<T>>, f: Frame) {
    forall i :: 0 <= i < |nodes| && nodes[i].key == f ==> nodes[i].first
  }

  lemma OnlyFirstIsHeld<T(!new)>(g: Group<T>, nodes: seq<GraphNode<T>>, edges: map<Edge, nat>,
                                 frames: map<Frame, Aggregate<T>>, posted: seq<T>, pend: seq<T>, f: Frame)
    requires Settled(g, nodes, edges, frames, posted, pend) && OnlyFirst(nodes, f)
    ensures OwnIsHeld(g, nodes, frames, f)
  {
    SumZeros(g, Chosen(g, Owns(g, nodes), AgainFlags(nodes, f)));
    OwnLacks(g, nodes, edges, frames, posted, pend, f);
  }

  // ----- the exact condition

  // If a node of the frame is not first, values exist for which something is missing
  lemma AgainLacks<T(!new)>(g: Group<T>, nodes: seq<GraphNode<T>>, edges: map<Edge, nat>,
                            frames: map<Frame, Aggregate<T>>, posted: seq<T>, f: Frame, d: T)
    returns (b: seq<GraphNode<T>>, framesB: map<Frame, Aggregate<T>>, postedB: seq<T>)
    requires Settled(g, nodes, edges, frames, posted, Zeros(g, |nodes|)) && !OnlyFirst(nodes, f) && d != g.zero
    ensures SameShape(nodes, b) && Settled(g, b, edges, framesB, postedB, Zeros(g, |b|))
    ensures !OwnIsHeld(g, b, framesB, f)
  {
    if !OwnIsHeld(g, nodes, frames, f) {
      b, framesB, postedB := nodes, frames, posted;
    } else {
      var i :| 0 <= i < |nodes| && nodes[i].key == f && !nodes[i].first;
      b, framesB, postedB := PostOne(g, nodes, edges, frames, posted, i, d);
      OwnLacks(g, nodes, edges, frames, posted, Zeros(g, |nodes|), f);
      var flags := AgainFlags(nodes, f);
      assert AgainFlags(b, f) == flags;
      SumAdd(g, Chosen(g, Owns(g, nodes), flags), Chosen(g, Owns(g, b), flags), i, d);
      Zero(g, d);
      OwnLacks(g, b, edges, framesB, postedB, Zeros(g, |b|), f);
    }
  }

  // For all values over the graph's shape the frame's own value is what its nodes hold
  ghost predicate AlwaysHeld<T(!new)>(g: Group<T>, nodes: seq<GraphNode<T>>, edges: map<Edge, nat>, f: Frame) {
    forall b, framesB, postedB {:trigger Settled(g, b, edges, framesB, postedB, Zeros(g, |b|))} ::
      Settled(g, b, edges, framesB, postedB, Zeros(g, |b|)) && SameShape(nodes, b) ==> OwnIsHeld(g, b, framesB, f)
  }

  // A frame's own value is complete for all values exactly when the frame never recurs on a path
  lemma OwnIsHeldIff<T(!new)>(g: Group<T>, nodes: seq<GraphNode<T>>, edges: map<Edge, nat>,
                              frames: map<Frame, Aggregate<T>>, posted: seq<T>, f: Frame, d: T)
    requires Settled(g, nodes, edges, frames, posted, Zeros(g, |nodes|)) && d != g.zero
    ensures OnlyFirst(nodes, f) <==> AlwaysHeld(g, nodes, edges, f)
  {
    if OnlyFirst(nodes, f) {
      forall b, framesB, postedB {:trigger Settled(g, b, edges, framesB, postedB, Zeros(g, |b|))}
        | Settled(g, b, edges, framesB, postedB, Zeros(g, |b|)) && SameShape(nodes, b)
        ensures OwnIsHeld(g, b, framesB, f)
      {
        OnlyFirstIsHeld(g, b, edges, framesB, postedB, Zeros(g, |b|), f);
      }
    } else {
      var b, framesB, postedB := AgainLacks(g, nodes, edges, frames, posted, f, d);
      assert !OwnIsHeld(g, b, framesB, f);
    }
  }

  // ----- in terms of the interned paths

  predicate Once(p: seq<Frame>, f: Frame) {
    forall a, b :: 0 <= a < b < |p| ==> !(p[a] == f && p[b] == f)
  }

  lemma RecurringNode<T(!new)>(nodes: seq<GraphNode<T>>, edges: map<Edge, nat>, k: nat, a: nat, b: nat)
    returns (j: nat)
    requires Shaped(nodes, edges) && Firsts(nodes, edges) && k < |nodes|
    requires a < b < |Trace(nodes, edges, k)| && Trace(nodes, edges, k)[a] == Trace(nodes, edges, k)[b]
    ensures j < |nodes| && nodes[j].key == Trace(nodes, edges, k)[b] && !nodes[j].first
  {
    var p := Trace(nodes, edges, k);
    j := PrefixHasNode(nodes, edges, k, p[..b + 1]);
    assert NodeOk(nodes, edges, j) && FirstOk(nodes, edges, j);
    var outer := Trace(nodes, edges, nodes[j].parent);
    assert p[..b + 1] == outer + [nodes[j].key];
    assert outer[a] == p[..b + 1][a] == p[a] && nodes[j].key == p[..b + 1][b] == p[b];
  }

  // The nodes of a frame are all first exactly when no interned path contains the frame twice
  lemma OnlyFirstIff<T(!new)>(nodes: seq<GraphNode<T>>, edges: map<Edge, nat>, paths: set<seq<Frame>>, f: Frame)
    requires Shaped(nodes, edges) && Firsts(nodes, edges) && Spanned(nodes, edges, paths)
    ensures OnlyFirst(nodes, f) <==> forall p :: p in paths ==> Once(p, f)
  {
    if OnlyFirst(nodes, f) {
      forall p | p in paths ensures Once(p, f) {
        assert HasTrace(nodes, edges, p);
        var k :| 0 <= k < |nodes| && Trace(nodes, edges, k) == p;
        forall a, b | 0 <= a < b < |p| ensures !(p[a] == f && p[b] == f) {
          if p[a] == f && p[b] == f {
            var j := RecurringNode(nodes, edges, k, a, b);
            assert false;
          }
        }
      }
    } else {
      var i :| 0 <= i < |nodes| && nodes[i].key == f && !nodes[i].first;
      assert NodeOk(nodes, edges, i) && FirstOk(nodes, edges, i) && NodeIn(nodes, edges, paths, i);
      var q :| q in paths && Trace(nodes, edges, i) <= q;
      var outer := Trace(nodes, edges, nodes[i].parent);
      var a :| 0 <= a < |outer| && outer[a] == f;
      assert q[a] == (outer + [f])[a] == f && q[|outer|] == (outer + [f])[|outer|] == f;
      assert !Once(q, f);
    }
  }

  // What is posted goes to nodes, and these stand on interned paths
  lemma PostsOnce<T(!new)>(nodes: seq<GraphNode<T>>, edges: map<Edge, nat>, posts: seq<Post<T>>, leaves: seq<nat>,
                           paths: set<seq<Frame>>, f: Frame, j: nat)
    requires Shaped(nodes, edges) && Placed(nodes, edges, posts, leaves) && Spanned(nodes, edges, paths)
    requires (forall p :: p in paths ==> Once(p, f)) && j < |posts|
    ensures Once(posts[j].path, f)
  {
    assert leaves[j] < |nodes| && NodeIn(nodes, edges, paths, leaves[j]);
    var p := posts[j].path;
    if p != [] {
      var q :| q in paths && p <= q;
      assert Once(q, f);
    }
  }

  lemma OnceEnds(p: seq<Frame>, f: Frame)
    requires Once(p, f)
    ensures In(EndingIn(f), p) == In(Ending(f), p)
  {
  }

  // After every snapshot: if no interned path contains the frame twice, its own value is everything posted
  // under paths that end with it; for the root's frame that includes the root's own
  lemma OwnIsAllEnding<T(!new)>(reader: Processor<T>, f: Frame)
    requires reader.Valid() && reader.Quiet() && forall p :: p in reader.paths ==> Once(p, f)
    ensures var all := PostedIn(reader.g, reader.posts, Ending(f));
      FrameOwn(reader.g, reader.graph.frames, f)
      == if f == ROOT_FRAME then reader.g.add(all, PostedIn(reader.g, reader.posts, At([]))) else all
  {
    var nodes, edges, posts := reader.graph.nodes, reader.graph.edges, reader.posts;
    reader.FrameIsPosts(f);
    forall j | 0 <= j < |posts| ensures In(EndingIn(f), posts[j].path) == In(Ending(f), posts[j].path) {
      PostsOnce(nodes, edges, posts, reader.leaves, reader.paths, f, j);
      OnceEnds(posts[j].path, f);
    }
    SamePosted(reader.g, posts, EndingIn(f), Ending(f));
  }

  // ----- a run that shows it

  // d is all that was posted, to a node of the frame that is not first
  lemma OnePostIsMissing<T(!new)>(g: Group<T>, nodes: seq<GraphNode<T>>, edges: map<Edge, nat>,
                                  frames: map<Frame, Aggregate<T>>, i: nat, d: T)
    requires i < |nodes| && Settled(g, nodes, edges, frames, Zeros(g, |nodes|)[i := d], Zeros(g, |nodes|))
    requires !nodes[i].first
    ensures FrameOwn(g, frames, nodes[i].key) == g.zero && Held(g, nodes, nodes[i].key) == d
  {
    var posted, f := Zeros(g, |nodes|)[i := d], nodes[i].key;
    OwnIsPosted(g, nodes, edges, frames, posted);
    SumOne(g, Chosen(g, posted, EndFlags(nodes, f)), i);
    assert FrameOk(g, nodes, frames, f);
    SumZeros(g, Chosen(g, posted, HeadFlags(nodes, f)));
  }

  lemma LastOfTwo(outer: seq<Frame>, key: Frame, f: Frame)
    requires outer + [key] == [f, f]
    ensures key == f && f in outer
  {
    assert |outer| == 1 && outer[0] == (outer + [key])[0] && key == (outer + [key])[1];
  }

  // Posting d under the path [f, f]: the frame that ends the path has nothing of it as its own
  method RecursionIsMissing<T(!new)>(g: Group<T>, f: Frame, d: T) returns (graph: Graph<T>)
    requires Lawful(g)
    ensures graph.Valid() && graph.g == g && graph.postponed == map[]
    ensures FrameOwn(g, graph.frames, f) == g.zero && Held(g, graph.nodes, f) == d
    ensures d != g.zero ==> !OwnIsHeld(g, graph.nodes, graph.frames, f)
  {
    graph := new Graph(g);
    var id := graph.ConstructPath([f, f]);
    assert graph.posted == Zeros(g, |graph.nodes|);
    ghost var nodes := graph.nodes;
    graph.PostponeDiffUpdate(id, d);
    Zero(g, d);
    assert graph.posted == Zeros(g, |nodes|)[id := d];
    graph.ProcessPostponedUpdates();
    ShapeKept(nodes, graph.nodes, graph.edges);
    assert Pending(g, graph.nodes, graph.postponed) == Zeros(g, |graph.nodes|);
    assert NodeOk(graph.nodes, graph.edges, id) && FirstOk(graph.nodes, graph.edges, id);
    LastOfTwo(Trace(graph.nodes, graph.edges, graph.nodes[id].parent), graph.nodes[id].key, f);
    OnePostIsMissing(g, graph.nodes, graph.edges, graph.frames, id, d);
  }
}
