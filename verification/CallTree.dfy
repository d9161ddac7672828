/**
 The values of the call graph: nodes with aggregated counters, per-frame
 aggregates, and the books that every step of the update propagation keeps.
 */
module CallTree {
  import opened Groups
  import opened Options
  import opened TreeSums

  type Frame = nat
  const ROOT_FRAME: Frame := 0

  datatype Aggregate<T> = Aggregate(self: Option<T>, total: T)

  datatype GraphNode<T> = GraphNode(key: Frame, parent: nat, level: nat, isLeaf: bool, first: bool, agg: Aggregate<T>)

  function Own<T>(g: Group<T>, a: Aggregate<T>): (r: T) {
    if a.self.Some? then a.self.value else g.zero
  }

  ghost function Par<T>(nodes: seq<GraphNode<T>>): (r: seq<nat>)
    ensures |r| == |nodes| && forall i :: 0 <= i < |nodes| ==> r[i] == nodes[i].parent
  {
    seq(|nodes|, i requires 0 <= i < |nodes| => nodes[i].parent)
  }

  ghost function Owns<T>(g: Group<T>, nodes: seq<GraphNode<T>>): (r: seq<T>)
    ensures |r| == |nodes| && forall i :: 0 <= i < |nodes| ==> r[i] == Own(g, nodes[i].agg)
  {
    seq(|nodes|, i requires 0 <= i < |nodes| => Own(g, nodes[i].agg))
  }

  ghost function Tots<T>(nodes: seq<GraphNode<T>>): (r: seq<T>)
    ensures |r| == |nodes| && forall i :: 0 <= i < |nodes| ==> r[i] == nodes[i].agg.total
  {
    seq(|nodes|, i requires 0 <= i < |nodes| => nodes[i].agg.total)
  }

  // Node i carries frame f and is the first on its path that does
  ghost function HeadFlags<T>(nodes: seq<GraphNode<T>>, f: Frame): (r: seq<bool>)
    ensures |r| == |nodes| && forall i :: 0 <= i < |nodes| ==> r[i] == (nodes[i].first && nodes[i].key == f)
  {
    seq(|nodes|, i requires 0 <= i < |nodes| => nodes[i].first && nodes[i].key == f)
  }

  // ----- balance while updates are on their way up

  // What is credited to i has still to be added to its total
  ghost predicate BalancedAt<T>(g: Group<T>, nodes: seq<GraphNode<T>>, credit: seq<T>, i: nat)
    requires |credit| == |nodes| && i < |nodes|
  {
    g.add(nodes[i].agg.total, credit[i])
      == g.add(Own(g, nodes[i].agg), Sum(g, ChildTerms(g, Par(nodes), Tots(nodes), i)))
  }

  ghost predicate Balanced<T>(g: Group<T>, nodes: seq<GraphNode<T>>, credit: seq<T>) {
    && |credit| == |nodes|
    && forall i :: 0 <= i < |nodes| ==> BalancedAt(g, nodes, credit, i)
  }

  // What is posted to i is in its own value or still pending
  ghost predicate PostedAt<T>(g: Group<T>, nodes: seq<GraphNode<T>>, posted: seq<T>, pend: seq<T>, i: nat)
    requires |posted| == |pend| == |nodes| && i < |nodes|
  {
    posted[i] == g.add(Own(g, nodes[i].agg), pend[i])
  }

  ghost predicate Posted<T>(g: Group<T>, nodes: seq<GraphNode<T>>, posted: seq<T>, pend: seq<T>) {
    && |posted| == |pend| == |nodes|
    && forall i :: 0 <= i < |nodes| ==> PostedAt(g, nodes, posted, pend, i)
  }

  function FrameOwn<T>(g: Group<T>, frames: map<Frame, Aggregate<T>>, f: Frame): (r: T) {
    if f in frames then Own(g, frames[f]) else g.zero
  }

  function FrameTotal<T>(g: Group<T>, frames: map<Frame, Aggregate<T>>, f: Frame): (r: T) {
    if f in frames then frames[f].total else g.zero
  }

  ghost predicate FrameOk<T>(g: Group<T>, nodes: seq<GraphNode<T>>, frames: map<Frame, Aggregate<T>>, f: Frame) {
    && FrameOwn(g, frames, f) == Sum(g, Chosen(g, Owns(g, nodes), HeadFlags(nodes, f)))
    && FrameTotal(g, frames, f) == Sum(g, Chosen(g, Tots(nodes), HeadFlags(nodes, f)))
  }

  ghost predicate FramesOk<T>(g: Group<T>, nodes: seq<GraphNode<T>>, frames: map<Frame, Aggregate<T>>) {
    forall f :: FrameOk(g, nodes, frames, f)
  }

  ghost predicate Books<T(!new)>(g: Group<T>, nodes: seq<GraphNode<T>>, frames: map<Frame, Aggregate<T>>,
                          posted: seq<T>, pend: seq<T>, credit: seq<T>) {
    && Lawful(g)
    && Balanced(g, nodes, credit)
    && Posted(g, nodes, posted, pend)
    && FramesOk(g, nodes, frames)
  }

  // ----- the two elementary updates

  function AddOwn<T>(g: Group<T>, nodes: seq<GraphNode<T>>, i: nat, d: T): (r: seq<GraphNode<T>>)
    requires i < |nodes|
  {
    var n := nodes[i];
    nodes[i := n.(agg := n.agg.(self := Some(g.add(Own(g, n.agg), d))))]
  }

  function AddTotal<T>(g: Group<T>, nodes: seq<GraphNode<T>>, i: nat, d: T): (r: seq<GraphNode<T>>)
    requires i < |nodes|
  {
    var n := nodes[i];
    nodes[i := n.(agg := n.agg.(total := g.add(n.agg.total, d)))]
  }

  function FrameAddOwn<T>(g: Group<T>, frames: map<Frame, Aggregate<T>>, f: Frame, d: T): (r: map<Frame,
                                                                                           Aggregate<T>>) {
    frames[f :=
      if f in frames then frames[f].(self := Some(g.add(Own(g, frames[f]), d))) else Aggregate(Some(d), g.zero)]
  }

  function FrameAddTotal<T>(g: Group<T>, frames: map<Frame, Aggregate<T>>, f: Frame, d: T): (r: map<Frame,
                                                                                             Aggregate<T>>) {
    frames[f := if f in frames then frames[f].(total := g.add(frames[f].total, d)) else Aggregate(None, d)]
  }

  lemma OwnBalanced<T(!new)>(g: Group<T>, nodes: seq<GraphNode<T>>, credit: seq<T>, i: nat, d: T)
    requires Lawful(g) && Balanced(g, nodes, credit) && i < |nodes|
    ensures Balanced(g, AddOwn(g, nodes, i, d), credit[i := g.add(credit[i], d)])
  {
    var nodes', credit' := AddOwn(g, nodes, i, d), credit[i := g.add(credit[i], d)];
    assert Par(nodes') == Par(nodes) && Tots(nodes') == Tots(nodes);
    forall j | 0 <= j < |nodes| ensures BalancedAt(g, nodes', credit', j) {
      assert BalancedAt(g, nodes, credit, j);
      if j == i {
        var kids := Sum(g, ChildTerms(g, Par(nodes), Tots(nodes), i));
        Assoc(g, nodes[i].agg.total, credit[i], d);
        Exchange(g, Own(g, nodes[i].agg), d, kids);
      }
    }
  }

  lemma OwnFrames<T(!new)>(g: Group<T>, nodes: seq<GraphNode<T>>, frames: map<Frame, Aggregate<T>>, i: nat, d: T)
    requires Lawful(g) && FramesOk(g, nodes, frames) && i < |nodes|
    ensures FramesOk(g, AddOwn(g, nodes, i, d),
                     if nodes[i].first then FrameAddOwn(g, frames, nodes[i].key, d) else frames)
  {
    var nodes' := AddOwn(g, nodes, i, d);
    var frames' := if nodes[i].first then FrameAddOwn(g, frames, nodes[i].key, d) else frames;
    forall f ensures FrameOk(g, nodes', frames', f) {
      assert FrameOk(g, nodes, frames, f);
      assert HeadFlags(nodes', f) == HeadFlags(nodes, f) && Tots(nodes') == Tots(nodes);
      var a, b := Chosen(g, Owns(g, nodes), HeadFlags(nodes, f)), Chosen(g, Owns(g, nodes'), HeadFlags(nodes, f));
      if HeadFlags(nodes, f)[i] {
        SumAdd(g, a, b, i, d);
        Zero(g, d);
      } else {
        assert a == b;
      }
    }
  }

  lemma OwnStep<T(!new)>(g: Group<T>, nodes: seq<GraphNode<T>>, frames: map<Frame, Aggregate<T>>,
                  posted: seq<T>, pend: seq<T>, credit: seq<T>, i: nat, d: T)
    requires Books(g, nodes, frames, posted, pend, credit) && i < |nodes| && pend[i] == d
    ensures Books(g, AddOwn(g, nodes, i, d), if nodes[i].first then FrameAddOwn(g, frames, nodes[i].key, d) else frames,
                  posted, pend[i := g.zero], credit[i := g.add(credit[i], d)])
  {
    OwnBalanced(g, nodes, credit, i, d);
    OwnFrames(g, nodes, frames, i, d);
    var nodes', pend' := AddOwn(g, nodes, i, d), pend[i := g.zero];
    forall j | 0 <= j < |nodes| ensures PostedAt(g, nodes', posted, pend', j) {
      assert PostedAt(g, nodes, posted, pend, j);
      Zero(g, g.add(Own(g, nodes[i].agg), d));
    }
  }

  // The credit after the total of i has been brought up to date: it moves on to the parent
  ghost function PassOn<T>(g: Group<T>, nodes: seq<GraphNode<T>>, credit: seq<T>, i: nat): (r: seq<T>)
    requires |credit| == |nodes| && i < |nodes| && (i > 0 ==> nodes[i].parent < i)
  {
    var cleared := credit[i := g.zero];
    if i == 0 then cleared else cleared[nodes[i].parent := g.add(credit[nodes[i].parent], credit[i])]
  }

  lemma TotalBalanced<T(!new)>(g: Group<T>, nodes: seq<GraphNode<T>>, credit: seq<T>, i: nat)
    requires Lawful(g) && Balanced(g, nodes, credit) && i < |nodes| && (i > 0 ==> nodes[i].parent < i)
    ensures Balanced(g, AddTotal(g, nodes, i, credit[i]), PassOn(g, nodes, credit, i))
  {
    var nodes', credit' := AddTotal(g, nodes, i, credit[i]), PassOn(g, nodes, credit, i);
    assert Par(nodes') == Par(nodes);
    forall j | 0 <= j < |nodes| ensures BalancedAt(g, nodes', credit', j) {
      assert BalancedAt(g, nodes, credit, j);
      var a, b := ChildTerms(g, Par(nodes), Tots(nodes), j), ChildTerms(g, Par(nodes'), Tots(nodes'), j);
      if i > 0 && j == nodes[i].parent {
        SumAdd(g, a, b, i, credit[i]);
        Assoc(g, nodes[j].agg.total, credit[j], credit[i]);
        Assoc(g, Own(g, nodes[j].agg), Sum(g, a), credit[i]);
      } else {
        assert a == b;
        if j == i {
          Zero(g, nodes'[i].agg.total);
        }
      }
    }
  }

  lemma TotalFrames<T(!new)>(g: Group<T>, nodes: seq<GraphNode<T>>, frames: map<Frame, Aggregate<T>>, i: nat, d: T)
    requires Lawful(g) && FramesOk(g, nodes, frames) && i < |nodes|
    ensures FramesOk(g, AddTotal(g, nodes, i, d),
                     if nodes[i].first then FrameAddTotal(g, frames, nodes[i].key, d) else frames)
  {
    var nodes' := AddTotal(g, nodes, i, d);
    var frames' := if nodes[i].first then FrameAddTotal(g, frames, nodes[i].key, d) else frames;
    forall f ensures FrameOk(g, nodes', frames', f) {
      assert FrameOk(g, nodes, frames, f);
      assert HeadFlags(nodes', f) == HeadFlags(nodes, f) && Owns(g, nodes') == Owns(g, nodes);
      var a, b := Chosen(g, Tots(nodes), HeadFlags(nodes, f)), Chosen(g, Tots(nodes'), HeadFlags(nodes, f));
      if HeadFlags(nodes, f)[i] {
        SumAdd(g, a, b, i, d);
        Zero(g, d);
      } else {
        assert a == b;
      }
    }
  }

  lemma TotalStep<T(!new)>(g: Group<T>, nodes: seq<GraphNode<T>>, frames: map<Frame, Aggregate<T>>,
                    posted: seq<T>, pend: seq<T>, credit: seq<T>, i: nat, d: T)
    requires Books(g, nodes, frames, posted, pend, credit)
    requires i < |nodes| && (i > 0 ==> nodes[i].parent < i) && credit[i] == d
    ensures Books(g, AddTotal(g, nodes, i, d),
                  if nodes[i].first then FrameAddTotal(g, frames, nodes[i].key, d) else frames,
                  posted, pend, PassOn(g, nodes, credit, i))
  {
    TotalBalanced(g, nodes, credit, i);
    TotalFrames(g, nodes, frames, i, d);
    forall j | 0 <= j < |nodes| ensures PostedAt(g, AddTotal(g, nodes, i, d), posted, pend, j) {
      assert PostedAt(g, nodes, posted, pend, j);
    }
  }
}
