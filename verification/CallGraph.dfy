/**
 The call graph, updated in place: paths of frames are interned as nodes,
 counter differences are postponed per level and then propagated bottom-up.
 */
module CallGraph {
  import opened Options
  import opened Groups
  import opened Tallies
  import opened TreeSums
  import opened CallTree

  datatype Edge = Edge(from: nat, key: Frame)

  // ----- the tree of frames

  ghost predicate NodeOk<T>(nodes: seq<GraphNode<T>>, edges: map<Edge, nat>, i: nat)
    requires i < |nodes|
  {
    var n := nodes[i];
    && n.parent < i
    && n.level == nodes[n.parent].level + 1
    && Edge(n.parent, n.key) in edges
    && edges[Edge(n.parent, n.key)] == i
  }

  ghost predicate EdgeOk<T>(nodes: seq<GraphNode<T>>, edges: map<Edge, nat>, e: Edge)
    requires e in edges
  {
    && 0 < edges[e] < |nodes|
    && nodes[edges[e]].parent == e.from
    && nodes[edges[e]].key == e.key
  }

  ghost predicate Shaped<T>(nodes: seq<GraphNode<T>>, edges: map<Edge, nat>) {
    && |nodes| > 0
    && nodes[0].parent == 0 && nodes[0].level == 0 && nodes[0].key == ROOT_FRAME && nodes[0].first
    && (forall i {:trigger NodeOk(nodes, edges, i)} :: 0 < i < |nodes| ==> NodeOk(nodes, edges, i))
    && (forall e :: e in edges ==> EdgeOk(nodes, edges, e))
  }

  lemma ShapeIsOrdered<T>(nodes: seq<GraphNode<T>>, edges: map<Edge, nat>)
    requires Shaped(nodes, edges)
    ensures Ordered(Par(nodes))
  {
    forall i | 0 < i < |nodes| ensures Par(nodes)[i] < i {
      assert NodeOk(nodes, edges, i);
    }
  }

  // The frames on the path from the root to node i, without the root's own
  ghost function Trace<T>(nodes: seq<GraphNode<T>>, edges: map<Edge, nat>, i: nat): (r: seq<Frame>)
    requires Shaped(nodes, edges) && i < |nodes|
    decreases i
  {
    if i == 0 then [] else
      assert NodeOk(nodes, edges, i);
      Trace(nodes, edges, nodes[i].parent) + [nodes[i].key]
  }

  // `first` marks the first occurrence of a frame on the path
  ghost predicate FirstOk<T>(nodes: seq<GraphNode<T>>, edges: map<Edge, nat>, i: nat)
    requires Shaped(nodes, edges) && 0 < i < |nodes| && NodeOk(nodes, edges, i)
  {
    nodes[i].first <==> nodes[i].key !in Trace(nodes, edges, nodes[i].parent)
  }

  ghost predicate Firsts<T>(nodes: seq<GraphNode<T>>, edges: map<Edge, nat>)
    requires Shaped(nodes, edges)
  {
    forall i {:trigger NodeOk(nodes, edges, i)} :: 0 < i < |nodes| ==>
      NodeOk(nodes, edges, i) && FirstOk(nodes, edges, i)
  }

  // Two nodes with the same trace are the same node
  lemma {:induction false} TraceUnique<T>(nodes: seq<GraphNode<T>>, edges: map<Edge, nat>, i: nat, j: nat)
    requires Shaped(nodes, edges) && i < |nodes| && j < |nodes|
    requires Trace(nodes, edges, i) == Trace(nodes, edges, j)
    ensures i == j
    decreases i
  {
    if i > 0 && j > 0 {
      assert NodeOk(nodes, edges, i) && NodeOk(nodes, edges, j);
      var a, b := Trace(nodes, edges, nodes[i].parent), Trace(nodes, edges, nodes[j].parent);
      assert (a + [nodes[i].key])[..|a|] == a && (b + [nodes[j].key])[..|b|] == b;
      assert nodes[i].key == (a + [nodes[i].key])[|a|] == nodes[j].key;
      TraceUnique(nodes, edges, nodes[i].parent, nodes[j].parent);
    }
  }

  // ----- postponed differences

  ghost predicate AtLevel<T>(nodes: seq<GraphNode<T>>, m: map<nat, T>, level: nat) {
    forall i :: i in m ==> i < |nodes| && nodes[i].level == level
  }

  ghost predicate Filed<T>(nodes: seq<GraphNode<T>>, postponed: map<nat, map<nat, T>>) {
    forall level :: level in postponed ==> AtLevel(nodes, postponed[level], level)
  }

  ghost function PendingAt<T>(g: Group<T>, nodes: seq<GraphNode<T>>, postponed: map<nat, map<nat, T>>, i: nat): (r: T)
    requires i < |nodes|
  {
    if nodes[i].level in postponed then Get(g, postponed[nodes[i].level], i) else g.zero
  }

  ghost function Pending<T>(g: Group<T>, nodes: seq<GraphNode<T>>, postponed: map<nat, map<nat, T>>): (r: seq<T>)
    ensures |r| == |nodes| && forall i :: 0 <= i < |nodes| ==> r[i] == PendingAt(g, nodes, postponed, i)
  {
    seq(|nodes|, i requires 0 <= i < |nodes| => PendingAt(g, nodes, postponed, i))
  }

  ghost function Zeros<T>(g: Group<T>, n: nat): (r: seq<T>)
    ensures |r| == n && forall i :: 0 <= i < n ==> r[i] == g.zero
  {
    seq(n, i => g.zero)
  }

  // Only the aggregates of the nodes differ
  ghost predicate SameShape<T>(a: seq<GraphNode<T>>, b: seq<GraphNode<T>>) {
    |a| == |b| && forall i :: 0 <= i < |a| ==> b[i] == a[i].(agg := b[i].agg)
  }

  lemma {:induction false} TraceKept<T>(a: seq<GraphNode<T>>, b: seq<GraphNode<T>>, edges: map<Edge, nat>, i: nat)
    requires Shaped(a, edges) && Shaped(b, edges) && SameShape(a, b) && i < |a|
    ensures Trace(b, edges, i) == Trace(a, edges, i)
  {
    if i > 0 {
      assert NodeOk(a, edges, i);
      TraceKept(a, b, edges, a[i].parent);
    }
  }

  lemma ShapeKept<T>(a: seq<GraphNode<T>>, b: seq<GraphNode<T>>, edges: map<Edge, nat>)
    requires Shaped(a, edges) && SameShape(a, b)
    ensures Shaped(b, edges)
    ensures forall i :: 0 <= i < |a| ==> Trace(b, edges, i) == Trace(a, edges, i)
    ensures Firsts(a, edges) ==> Firsts(b, edges)
  {
    forall i | 0 < i < |b| ensures NodeOk(b, edges, i) {
      assert NodeOk(a, edges, i);
    }
    forall e | e in edges ensures EdgeOk(b, edges, e) {
      assert EdgeOk(a, edges, e);
    }
    forall i | 0 <= i < |a| ensures Trace(b, edges, i) == Trace(a, edges, i) {
      TraceKept(a, b, edges, i);
    }
    if Firsts(a, edges) {
      forall i | 0 < i < |b| ensures NodeOk(b, edges, i) && FirstOk(b, edges, i) {
        assert NodeOk(a, edges, i) && NodeOk(b, edges, i) && FirstOk(a, edges, i);
      }
    }
  }

  // The root is the only node at level 0
  lemma RootLevel<T>(nodes: seq<GraphNode<T>>, edges: map<Edge, nat>, i: nat)
    requires Shaped(nodes, edges) && i < |nodes|
    ensures nodes[i].level == 0 <==> i == 0
    ensures i > 0 ==> nodes[i].parent < i && nodes[nodes[i].parent].level == nodes[i].level - 1
  {
    if i > 0 {
      assert NodeOk(nodes, edges, i);
    }
  }

  function FreshNode<T>(g: Group<T>, key: Frame, parent: nat, level: nat, first: bool): (r: GraphNode<T>) {
    GraphNode(key, parent, level, false, first, Aggregate(None, g.zero))
  }

  lemma FreshBooks<T(!new)>(g: Group<T>, nodes: seq<GraphNode<T>>, edges: map<Edge, nat>)
    requires Lawful(g) && nodes == [FreshNode(g, ROOT_FRAME, 0, 0, true)]
    ensures Books(g, nodes, map[], [g.zero], [g.zero], [g.zero])
  {
    Zero(g, g.zero);
    forall i | 0 <= i < |nodes| ensures BalancedAt(g, nodes, [g.zero], i) && PostedAt(g, nodes, [g.zero], [g.zero], i) {
      SumZeros(g, ChildTerms(g, Par(nodes), Tots(nodes), i));
    }
    forall f ensures FrameOk(g, nodes, map[], f) {
      SumZeros(g, Chosen(g, Owns(g, nodes), HeadFlags(nodes, f)));
      SumZeros(g, Chosen(g, Tots(nodes), HeadFlags(nodes, f)));
    }
  }

  // `left` is what is still pending at this level, `rest` what is pending elsewhere
  ghost predicate Held<T>(g: Group<T>, start: seq<GraphNode<T>>, level: nat, left: map<nat, T>, rest: seq<T>,
                          pend: seq<T>) {
    && AtLevel(start, left, level)
    && |rest| == |pend| == |start|
    && forall i :: 0 <= i < |start| ==> pend[i] == if start[i].level == level then Get(g, left, i) else rest[i]
  }

  ghost predicate Credited<T>(g: Group<T>, start: seq<GraphNode<T>>, level: nat, cur: map<nat, T>, credit: seq<T>) {
    && AtLevel(start, cur, level)
    && |credit| == |start|
    && forall i :: 0 <= i < |start| ==> credit[i] == Get(g, cur, i)
  }

  // The nodes that had an own value before, and those given, have one now
  ghost predicate Filled<T>(before: seq<GraphNode<T>>, after: seq<GraphNode<T>>, ids: set<nat>) {
    && |before| == |after|
    && forall i :: 0 <= i < |before| && (before[i].agg.self.Some? || i in ids) ==> after[i].agg.self.Some?
  }

  lemma FilledMore<T(!new)>(g: Group<T>, before: seq<GraphNode<T>>, after: seq<GraphNode<T>>, all: set<nat>,
                            left: set<nat>, id: nat, d: T)
    requires Filled(before, after, all - left) && id < |after|
    ensures Filled(before, AddOwn(g, after, id, d), all - (left - {id}))
  {
  }

  lemma SelfLinks<T(!new)>(g: Group<T>, start: seq<GraphNode<T>>, level: nat, left: map<nat, T>, rest: seq<T>,
                           pend: seq<T>,
                    cur: map<nat, T>, credit: seq<T>, id: nat)
    requires Lawful(g) && Held(g, start, level, left, rest, pend)
    requires Credited(g, start, level, cur, credit) && id in left
    ensures Held(g, start, level, left - {id}, rest, pend[id := g.zero])
    ensures Credited(g, start, level, Put(g, cur, id, left[id]), credit[id := g.add(credit[id], left[id])])
  {
    PutAdds(g, cur, id, left[id]);
  }

  // `left` is still to be added to the totals of this level; `next` is what has been
  // passed on to their parents. What the root passes on to itself is dropped.
  ghost predicate Rising<T>(g: Group<T>, start: seq<GraphNode<T>>, level: nat, left: map<nat, T>, next: map<nat, T>,
                            credit: seq<T>) {
    && AtLevel(start, left, level)
    && (level > 0 ==> AtLevel(start, next, level - 1))
    && |credit| == |start|
    && forall i :: 0 <= i < |start| ==>
         credit[i] == g.add(Get(g, left, i), if level == 0 then g.zero else Get(g, next, i))
  }

  lemma RiseStart<T(!new)>(g: Group<T>, start: seq<GraphNode<T>>, level: nat, cur: map<nat, T>, credit: seq<T>)
    requires Lawful(g) && Credited(g, start, level, cur, credit)
    ensures Rising(g, start, level, cur, map[], credit)
  {
    forall i | 0 <= i < |start| ensures credit[i] == g.add(Get(g, cur, i), g.zero) {
      Zero(g, credit[i]);
    }
  }

  // The credit of a node at this level is what is left for it
  lemma RiseCredit<T(!new)>(g: Group<T>, start: seq<GraphNode<T>>, level: nat, left: map<nat, T>, next: map<nat, T>,
                            credit: seq<T>, id: nat)
    requires Lawful(g) && Rising(g, start, level, left, next, credit) && id in left
    ensures id < |start| && credit[id] == left[id]
  {
    Zero(g, left[id]);
  }

  lemma RiseStep<T(!new)>(g: Group<T>, start: seq<GraphNode<T>>, edges: map<Edge, nat>, nodes: seq<GraphNode<T>>,
                          level: nat,
                   left: map<nat, T>, next: map<nat, T>, credit: seq<T>, id: nat)
    requires Lawful(g) && Shaped(start, edges) && SameShape(start, nodes)
    requires Rising(g, start, level, left, next, credit) && id in left && credit[id] == left[id]
    requires id > 0 ==> nodes[id].parent < id
    ensures Rising(g, start, level, left - {id}, Put(g, next, nodes[id].parent, left[id]), PassOn(g, nodes, credit, id))
  {
    RootLevel(start, edges, id);
    var p, d := nodes[id].parent, left[id];
    var left', next', credit' := left - {id}, Put(g, next, p, d), PassOn(g, nodes, credit, id);
    PutAdds(g, next, p, d);
    Zero(g, g.zero);
    forall i | 0 <= i < |start|
      ensures credit'[i] == g.add(Get(g, left', i), if level == 0 then g.zero else Get(g, next', i))
    {
      if id > 0 && i == p {
        assert i !in left;
        Assoc(g, g.zero, Get(g, next, i), d);
      }
    }
  }

  lemma RiseEnd<T(!new)>(g: Group<T>, start: seq<GraphNode<T>>, level: nat, next: map<nat, T>, credit: seq<T>)
    requires Lawful(g) && Rising(g, start, level, map[], next, credit)
    ensures level > 0 ==> Credited(g, start, level - 1, next, credit)
    ensures level == 0 ==> credit == Zeros(g, |start|)
  {
    Zero(g, g.zero);
    forall i | 0 <= i < |start| && level > 0 ensures credit[i] == Get(g, next, i) {
      Zero(g, Get(g, next, i));
    }
  }

  ghost predicate Owed<T>(nodes: seq<GraphNode<T>>, postponed: map<nat, map<nat, T>>, ids: set<nat>) {
    forall i :: i in ids ==>
      i < |nodes| && (nodes[i].agg.self.Some? || (nodes[i].level in postponed && i in postponed[nodes[i].level]))
  }

  ghost function LevelDiffs<T>(postponed: map<nat, map<nat, T>>, level: nat): (r: map<nat, T>) {
    if level in postponed then postponed[level] else map[]
  }

  // Taking the differences of one level out of the postponed ones
  lemma TakeLevel<T(!new)>(g: Group<T>, start: seq<GraphNode<T>>, postponed: map<nat, map<nat, T>>, level: nat)
    requires Filed(start, postponed)
    ensures Held(g, start, level, LevelDiffs(postponed, level),
                 Pending(g, start, postponed - {level}), Pending(g, start, postponed))
    ensures Filed(start, postponed - {level})
  {
  }

  lemma LevelTaken<T(!new)>(g: Group<T>, start: seq<GraphNode<T>>, postponed: map<nat, map<nat, T>>, level: nat,
                            pend: seq<T>)
    requires level !in postponed && Held(g, start, level, map[], Pending(g, start, postponed), pend)
    ensures pend == Pending(g, start, postponed)
  {
  }

  lemma StillOwed<T(!new)>(before: seq<GraphNode<T>>, after: seq<GraphNode<T>>, postponed: map<nat, map<nat, T>>,
                           level: nat, ids: set<nat>)
    requires Owed(before, postponed, ids) && SameShape(before, after)
    requires Filled(before, after, LevelDiffs(postponed, level).Keys)
    ensures Owed(after, postponed - {level}, ids)
  {
    forall i | i in ids
      ensures i < |after|
      ensures after[i].agg.self.Some?
        || (after[i].level in postponed - {level} && i in (postponed - {level})[after[i].level])
    {
      assert before[i].level == after[i].level;
    }
  }

  method MaxKey(keys: set<nat>) returns (top: nat)
    requires keys != {}
    ensures top in keys && forall k :: k in keys ==> k <= top
  {
    top :| top in keys;
    var rest := keys - {top};
    while rest != {}
      invariant top in keys && rest <= keys
      invariant forall k :: k in keys && k !in rest ==> k <= top
    {
      var k :| k in rest;
      rest := rest - {k};
      if k > top {
        top := k;
      }
    }
  }

  // ----- growing the tree

  ghost predicate Extends<T>(a: seq<GraphNode<T>>, b: seq<GraphNode<T>>) {
    |a| <= |b| && forall i :: 0 <= i < |a| ==> b[i] == a[i].(isLeaf := b[i].isLeaf)
  }

  // New nodes were added at the end, with nothing posted to them
  ghost predicate Grew<T>(g: Group<T>, a: seq<GraphNode<T>>, postedA: seq<T>, b: seq<GraphNode<T>>, postedB: seq<T>) {
    && |a| <= |b| && b[..|a|] == a
    && (forall i :: |a| <= i < |b| ==> !b[i].isLeaf && b[i].agg == Aggregate(None, g.zero))
    && postedB == postedA + Zeros(g, |b| - |a|)
  }

  // As Grew, and node id has been marked as a leaf
  ghost predicate Interned<T>(g: Group<T>, a: seq<GraphNode<T>>, postedA: seq<T>, b: seq<GraphNode<T>>,
                              postedB: seq<T>, id: nat) {
    && Extends(a, b)
    && id < |b| && b[id].isLeaf
    && (forall i :: 0 <= i < |b| && i != id ==> b[i].isLeaf == (i < |a| && a[i].isLeaf))
    && (forall i :: |a| <= i < |b| ==> b[i].agg == Aggregate(None, g.zero))
    && postedB == postedA + Zeros(g, |b| - |a|)
  }

  lemma GrewInterned<T(!new)>(g: Group<T>, a: seq<GraphNode<T>>, pa: seq<T>, b: seq<GraphNode<T>>, pb: seq<T>, id: nat)
    requires Grew(g, a, pa, b, pb) && id < |b|
    ensures Interned(g, a, pa, b[id := b[id].(isLeaf := true)], pb, id)
    ensures b[id].isLeaf <==> id < |a| && a[id].isLeaf
  {
    assert forall i :: 0 <= i < |a| ==> b[i] == b[..|a|][i];
  }

  lemma GrewNot<T(!new)>(g: Group<T>, a: seq<GraphNode<T>>, posted: seq<T>)
    ensures Grew(g, a, posted, a, posted)
  {
    assert Zeros(g, 0) == [];
  }

  lemma GrewMore<T(!new)>(g: Group<T>, a: seq<GraphNode<T>>, pa: seq<T>, b: seq<GraphNode<T>>, pb: seq<T>,
                          c: seq<GraphNode<T>>, pc: seq<T>)
    requires Grew(g, a, pa, b, pb) && Grew(g, b, pb, c, pc)
    ensures Grew(g, a, pa, c, pc)
  {
    assert c[..|a|] == c[..|b|][..|a|];
    assert forall i :: |a| <= i < |b| ==> c[i] == c[..|b|][i];
    assert Zeros(g, |b| - |a|) + Zeros(g, |c| - |b|) == Zeros(g, |c| - |a|);
  }

  lemma {:induction false} TraceGrows<T>(a: seq<GraphNode<T>>, ea: map<Edge, nat>, b: seq<GraphNode<T>>, eb: map<Edge,
                                         nat>, i: nat)
    requires Shaped(a, ea) && Shaped(b, eb) && Extends(a, b) && i < |a|
    ensures Trace(b, eb, i) == Trace(a, ea, i)
  {
    if i > 0 {
      assert NodeOk(a, ea, i) && NodeOk(b, eb, i);
      TraceGrows(a, ea, b, eb, a[i].parent);
    }
  }

  lemma GrowShape<T(!new)>(g: Group<T>, nodes: seq<GraphNode<T>>, edges: map<Edge, nat>, parent: nat, key: Frame,
                           first: bool)
    requires Shaped(nodes, edges) && Firsts(nodes, edges) && parent < |nodes|
    requires Edge(parent, key) !in edges
    requires first <==> key !in Trace(nodes, edges, parent)
    ensures
      var nodes' := nodes + [FreshNode(g, key, parent, nodes[parent].level + 1, first)];
      var edges' := edges[Edge(parent, key) := |nodes|];
      && Shaped(nodes', edges') && Firsts(nodes', edges')
      && (forall i :: 0 <= i < |nodes| ==> Trace(nodes', edges', i) == Trace(nodes, edges, i))
      && Trace(nodes', edges', |nodes|) == Trace(nodes, edges, parent) + [key]
  {
    var nodes' := nodes + [FreshNode(g, key, parent, nodes[parent].level + 1, first)];
    var edges' := edges[Edge(parent, key) := |nodes|];
    forall i | 0 < i < |nodes'| ensures NodeOk(nodes', edges', i) {
      assert i < |nodes| ==> NodeOk(nodes, edges, i);
    }
    forall e | e in edges' ensures EdgeOk(nodes', edges', e) {
      assert e in edges ==> EdgeOk(nodes, edges, e);
    }
    forall i | 0 <= i < |nodes| ensures Trace(nodes', edges', i) == Trace(nodes, edges, i) {
      TraceGrows(nodes, edges, nodes', edges', i);
    }
    forall i | 0 < i < |nodes'| ensures NodeOk(nodes', edges', i) && FirstOk(nodes', edges', i) {
      assert NodeOk(nodes', edges', i);
      if i < |nodes| {
        assert NodeOk(nodes, edges, i) && FirstOk(nodes, edges, i);
      }
    }
    assert NodeOk(nodes', edges', |nodes|);
  }

  lemma ChosenGrows<T(!new)>(g: Group<T>, a: seq<T>, a': seq<T>, flags: seq<bool>, flags': seq<bool>)
    requires Lawful(g) && |a| == |flags| && |a'| == |flags'| == |a| + 1
    requires a'[..|a|] == a && flags'[..|a|] == flags && a'[|a|] == g.zero
    ensures Sum(g, Chosen(g, a', flags')) == Sum(g, Chosen(g, a, flags))
  {
    var s, s' := Chosen(g, a, flags), Chosen(g, a', flags');
    forall i | 0 <= i < |a| ensures s'[i] == s[i] {
      assert a'[..|a|][i] == a'[i] && flags'[..|a|][i] == flags'[i];
    }
    assert s' == s + [g.zero];
    SumPush(g, s, g.zero);
    Zero(g, Sum(g, s));
  }

  lemma GrowBooks<T(!new)>(g: Group<T>, nodes: seq<GraphNode<T>>, frames: map<Frame, Aggregate<T>>,
                    posted: seq<T>, pend: seq<T>, credit: seq<T>, n: GraphNode<T>)
    requires Books(g, nodes, frames, posted, pend, credit)
    requires n.agg == Aggregate(None, g.zero) && n.parent < |nodes|
    requires forall i :: 0 <= i < |nodes| ==> nodes[i].parent < |nodes|
    ensures Books(g, nodes + [n], frames, posted + [g.zero], pend + [g.zero], credit + [g.zero])
  {
    var nodes', posted', pend', credit' := nodes + [n], posted + [g.zero], pend + [g.zero], credit + [g.zero];
    Zero(g, g.zero);
    forall i | 0 <= i < |nodes'| ensures BalancedAt(g, nodes', credit', i) {
      var kids := ChildTerms(g, Par(nodes'), Tots(nodes'), i);
      if i < |nodes| {
        assert BalancedAt(g, nodes, credit, i);
        var before := ChildTerms(g, Par(nodes), Tots(nodes), i);
        assert kids == before + [g.zero];
        SumPush(g, before, g.zero);
        Zero(g, Sum(g, before));
      } else {
        SumZeros(g, kids);
      }
    }
    forall i | 0 <= i < |nodes'| ensures PostedAt(g, nodes', posted', pend', i) {
      assert i < |nodes| ==> PostedAt(g, nodes, posted, pend, i);
    }
    forall f ensures FrameOk(g, nodes', frames, f) {
      assert FrameOk(g, nodes, frames, f);
      ChosenGrows(g, Owns(g, nodes), Owns(g, nodes'), HeadFlags(nodes, f), HeadFlags(nodes', f));
      ChosenGrows(g, Tots(nodes), Tots(nodes'), HeadFlags(nodes, f), HeadFlags(nodes', f));
    }
  }

  lemma MarkedShape<T(!new)>(a: seq<GraphNode<T>>, b: seq<GraphNode<T>>, edges: map<Edge, nat>, id: nat)
    requires Shaped(a, edges) && Firsts(a, edges) && id < |a| && b == a[id := a[id].(isLeaf := true)]
    ensures Shaped(b, edges) && Firsts(b, edges)
    ensures forall i :: 0 <= i < |a| ==> Trace(b, edges, i) == Trace(a, edges, i)
  {
    forall i | 0 < i < |b| ensures NodeOk(b, edges, i) {
      assert NodeOk(a, edges, i);
    }
    forall e | e in edges ensures EdgeOk(b, edges, e) {
      assert EdgeOk(a, edges, e);
    }
    forall i | 0 <= i < |a| ensures Trace(b, edges, i) == Trace(a, edges, i) {
      TraceGrows(a, edges, b, edges, i);
    }
    forall i | 0 < i < |b| ensures NodeOk(b, edges, i) && FirstOk(b, edges, i) {
      assert NodeOk(a, edges, i) && NodeOk(b, edges, i) && FirstOk(a, edges, i);
    }
  }

  lemma MarkLeaf<T(!new)>(g: Group<T>, a: seq<GraphNode<T>>, b: seq<GraphNode<T>>, edges: map<Edge, nat>,
                          frames: map<Frame, Aggregate<T>>,
                   posted: seq<T>, pend: seq<T>, credit: seq<T>, id: nat)
    requires Shaped(a, edges) && Firsts(a, edges) && Books(g, a, frames, posted, pend, credit)
    requires id < |a| && b == a[id := a[id].(isLeaf := true)]
    ensures Shaped(b, edges) && Firsts(b, edges) && Books(g, b, frames, posted, pend, credit)
    ensures forall i :: 0 <= i < |a| ==> Trace(b, edges, i) == Trace(a, edges, i)
  {
    MarkedShape(a, b, edges, id);
    assert Par(a) == Par(b) && Tots(a) == Tots(b) && Owns(g, a) == Owns(g, b);
    forall i | 0 <= i < |a| ensures BalancedAt(g, b, credit, i) && PostedAt(g, b, posted, pend, i) {
      assert BalancedAt(g, a, credit, i) && PostedAt(g, a, posted, pend, i);
    }
    forall f ensures FrameOk(g, b, frames, f) {
      assert FrameOk(g, a, frames, f);
      assert HeadFlags(a, f) == HeadFlags(b, f);
    }
  }

  ghost predicate PrefixAt<T>(nodes: seq<GraphNode<T>>, edges: map<Edge, nat>, i: nat, trace: seq<Frame>)
    requires Shaped(nodes, edges) && i < |nodes|
  {
    Trace(nodes, edges, i) <= trace
  }

  // The traces of the nodes from n on are prefixes of a trace
  ghost predicate Prefixes<T>(nodes: seq<GraphNode<T>>, edges: map<Edge, nat>, n: nat, trace: seq<Frame>)
    requires Shaped(nodes, edges)
  {
    forall i {:trigger PrefixAt(nodes, edges, i, trace)} :: n <= i < |nodes| ==> PrefixAt(nodes, edges, i, trace)
  }

  lemma PrefixesMore<T(!new)>(a: seq<GraphNode<T>>, ea: map<Edge, nat>, b: seq<GraphNode<T>>, eb: map<Edge, nat>,
                              n: nat, trace: seq<Frame>)
    requires Shaped(a, ea) && Shaped(b, eb) && Extends(a, b) && Prefixes(a, ea, n, trace)
    requires |b| <= |a| + 1 && (|a| < |b| ==> Trace(b, eb, |a|) <= trace)
    ensures Prefixes(b, eb, n, trace)
  {
    forall i | n <= i < |b| ensures PrefixAt(b, eb, i, trace) {
      if i < |a| {
        assert PrefixAt(a, ea, i, trace);
        TraceGrows(a, ea, b, eb, i);
      }
    }
  }

  lemma PrefixesMarked<T(!new)>(a: seq<GraphNode<T>>, b: seq<GraphNode<T>>, edges: map<Edge, nat>, n: nat,
                                trace: seq<Frame>, id: nat)
    requires Shaped(a, edges) && Shaped(b, edges) && Prefixes(a, edges, n, trace)
    requires id < |a| && b == a[id := a[id].(isLeaf := true)]
    ensures Prefixes(b, edges, n, trace) && Trace(b, edges, id) == Trace(a, edges, id)
  {
    PrefixesMore(a, edges, b, edges, n, trace);
    TraceGrows(a, edges, b, edges, id);
  }

  lemma GrewExtends<T(!new)>(g: Group<T>, a: seq<GraphNode<T>>, pa: seq<T>, b: seq<GraphNode<T>>, pb: seq<T>)
    requires Grew(g, a, pa, b, pb)
    ensures Extends(a, b)
  {
    assert forall i :: 0 <= i < |a| ==> b[i] == b[..|a|][i];
  }

  // `reported` is what was handed out last: frames that are not marked as modified are still as they were then
  ghost predicate Marked<T>(frames: map<Frame, Aggregate<T>>, marked: set<Frame>, reported: map<Frame, Aggregate<T>>) {
    && marked <= frames.Keys && reported.Keys <= frames.Keys
    && forall f :: f in frames && f !in marked ==> f in reported && frames[f] == reported[f]
  }

  // Handing out the marked frames brings the report up to date
  lemma ReportFollows<T(!new)>(frames: map<Frame, Aggregate<T>>, marked: set<Frame>, reported: map<Frame, Aggregate<T>>,
                               changed: map<Frame, Aggregate<T>>)
    requires Marked(frames, marked, reported)
    requires changed.Keys == marked && forall f :: f in changed ==> changed[f] == frames[f]
    ensures reported + changed == frames
  {
  }

  lemma PendingPosts<T(!new)>(g: Group<T>, nodes: seq<GraphNode<T>>, postponed: map<nat, map<nat, T>>,
                              levelMap: map<nat, T>, id: nat, d: T)
    requires Lawful(g) && Filed(nodes, postponed) && id < |nodes| && levelMap == LevelDiffs(postponed, nodes[id].level)
    ensures var after := postponed[nodes[id].level := Put(g, levelMap, id, d)];
      var pend := Pending(g, nodes, postponed);
      Filed(nodes, after) && Pending(g, nodes, after) == pend[id := g.add(pend[id], d)]
  {
    PutAdds(g, levelMap, id, d);
    Zero(g, d);
  }

  lemma StillOwedMore<T(!new)>(nodes: seq<GraphNode<T>>, postponed: map<nat, map<nat, T>>, ids: set<nat>,
                               level: nat, more: map<nat, T>, id: nat)
    requires Owed(nodes, postponed, ids) && id < |nodes| && nodes[id].level == level
    requires id in more && LevelDiffs(postponed, level).Keys <= more.Keys
    ensures Owed(nodes, postponed[level := more], ids + {id})
  {
  }

  datatype RestorableState<T> = RestorableState(
    nodes: seq<GraphNode<T>>, edges: map<Edge, nat>, frames: map<Frame, Aggregate<T>>, modifiedFrames: set<Frame>,
    postponed: map<nat, map<nat, T>>, modifiedSelf: set<nat>, newLeaves: set<nat>)

  function Reversed(s: seq<nat>): (r: seq<nat>) {
    if s == [] then [] else [s[|s| - 1]] + Reversed(s[..|s| - 1])
  }

  ghost function Chain<T>(nodes: seq<GraphNode<T>>, edges: map<Edge, nat>, i: nat): (r: seq<nat>)
    requires Shaped(nodes, edges) && i < |nodes|
    ensures |r| > 0
    decreases i
  {
    if i == 0 then [0] else
      assert NodeOk(nodes, edges, i);
      Chain(nodes, edges, nodes[i].parent) + [i]
  }

  lemma {:induction false} ChainEnds<T>(nodes: seq<GraphNode<T>>, edges: map<Edge, nat>, i: nat)
    requires Shaped(nodes, edges) && i < |nodes|
    ensures var c := Chain(nodes, edges, i); c[0] == 0 && c[|c| - 1] == i
    decreases i
  {
    if i > 0 {
      assert NodeOk(nodes, edges, i);
      ChainEnds(nodes, edges, nodes[i].parent);
    }
  }

  lemma PostBooks<T(!new)>(g: Group<T>, nodes: seq<GraphNode<T>>, frames: map<Frame, Aggregate<T>>,
                    posted: seq<T>, pend: seq<T>, credit: seq<T>, id: nat, d: T)
    requires Books(g, nodes, frames, posted, pend, credit) && id < |nodes|
    ensures Books(g, nodes, frames, posted[id := g.add(posted[id], d)], pend[id := g.add(pend[id], d)], credit)
  {
    var posted', pend' := posted[id := g.add(posted[id], d)], pend[id := g.add(pend[id], d)];
    forall i | 0 <= i < |nodes| ensures PostedAt(g, nodes, posted', pend', i) {
      assert PostedAt(g, nodes, posted, pend, i);
      Assoc(g, Own(g, nodes[id].agg), pend[id], d);
    }
  }

  lemma ParentsInRange<T>(nodes: seq<GraphNode<T>>, edges: map<Edge, nat>)
    requires Shaped(nodes, edges)
    ensures forall i :: 0 <= i < |nodes| ==> nodes[i].parent < |nodes|
  {
    forall i | 0 <= i < |nodes| ensures nodes[i].parent < |nodes| {
      assert i > 0 ==> NodeOk(nodes, edges, i);
    }
  }

  lemma PendingGrows<T(!new)>(g: Group<T>, nodes: seq<GraphNode<T>>, n: GraphNode<T>, postponed: map<nat, map<nat, T>>)
    requires Filed(nodes, postponed)
    ensures Filed(nodes + [n], postponed)
    ensures Pending(g, nodes + [n], postponed) == Pending(g, nodes, postponed) + [g.zero]
  {
  }

  class Graph<T(!new)> {
    const g: Group<T>
    var nodes: seq<GraphNode<T>>
    var edges: map<Edge, nat>
    var frames: map<Frame, Aggregate<T>>
    var modifiedFrames: set<Frame>
    var postponed: map<nat, map<nat, T>>
    var modifiedSelf: set<nat>
    var newLeaves: set<nat>

    // the sum of all differences posted to each node
    ghost var posted: seq<T>
    // the frames as they were handed out last
    ghost var reported: map<Frame, Aggregate<T>>

    ghost predicate Valid()
      reads this
    {
      && Shaped(nodes, edges) && Firsts(nodes, edges)
      && Filed(nodes, postponed)
      && Books(g, nodes, frames, posted, Pending(g, nodes, postponed), Zeros(g, |nodes|))
      && Marked(frames, modifiedFrames, reported)
      && Owed(nodes, postponed, modifiedSelf)
    }

    constructor (group: Group<T>)
      requires Lawful(group)
      ensures Valid() && g == group && posted == [g.zero] && |nodes| == 1 && postponed == map[]
      ensures edges == map[] && frames == map[] && modifiedSelf == {} && modifiedFrames == {} && newLeaves == {}
      ensures !nodes[0].isLeaf && reported == map[]
    {
      g := group;
      nodes := [FreshNode(group, ROOT_FRAME, 0, 0, true)];
      edges, frames, postponed := map[], map[], map[];
      modifiedFrames, modifiedSelf, newLeaves := {}, {}, {};
      posted, reported := [group.zero], map[];
      new;
      FreshBooks(g, nodes, edges);
      assert Pending(g, nodes, postponed) == posted == Zeros(g, 1);
    }

    // All of the state that is saved
    function Saved(): (r: RestorableState<T>)
      reads this
    {
      RestorableState(nodes, edges, frames, modifiedFrames, postponed, modifiedSelf, newLeaves)
    }

    // Takes over a saved state; the ghost history comes along
    constructor Restore(group: Group<T>, state: RestorableState<T>, ghost history: seq<T>, ghost report: map<Frame,
                        Aggregate<T>>)
      ensures g == group && Saved() == state && posted == history && reported == report
    {
      g := group;
      nodes, edges, frames := state.nodes, state.edges, state.frames;
      modifiedFrames, postponed := state.modifiedFrames, state.postponed;
      modifiedSelf, newLeaves := state.modifiedSelf, state.newLeaves;
      posted, reported := history, report;
    }

    // ----- propagation

    // Adds a difference to the aggregate of a node's frame
    method AggregateOnFrame(id: nat, diff: T, own: bool)
      requires id < |nodes|
      modifies this`frames, this`modifiedFrames
      ensures own ==> frames == FrameAddOwn(g, old(frames), nodes[id].key, diff)
      ensures !own ==> frames == FrameAddTotal(g, old(frames), nodes[id].key, diff)
      ensures modifiedFrames == old(modifiedFrames) + {nodes[id].key}
    {
      var key := nodes[id].key;
      frames := if own then FrameAddOwn(g, frames, key, diff) else FrameAddTotal(g, frames, key, diff);
      modifiedFrames := modifiedFrames + {key};
    }

    // The state in the middle of the propagation
    ghost predicate Moving(start: seq<GraphNode<T>>, pend: seq<T>, credit: seq<T>)
      reads this
    {
      && Shaped(start, edges) && SameShape(start, nodes)
      && Books(g, nodes, frames, posted, pend, credit)
      && Marked(frames, modifiedFrames, reported)
    }

    // Adds a difference to the own value of one node
    method ApplySelf(id: nat, diff: T, ghost start: seq<GraphNode<T>>, ghost pend: seq<T>, ghost credit: seq<T>)
      requires Moving(start, pend, credit) && id < |nodes| && pend[id] == diff
      modifies this`nodes, this`frames, this`modifiedFrames
      ensures nodes == AddOwn(g, old(nodes), id, diff)
      ensures Moving(start, pend[id := g.zero], credit[id := g.add(credit[id], diff)])
    {
      OwnStep(g, nodes, frames, posted, pend, credit, id, diff);
      nodes := AddOwn(g, nodes, id, diff);
      if nodes[id].first {
        AggregateOnFrame(id, diff, true);
      }
    }

    // Applies the postponed differences of one level to the nodes' own values
    method SelfPhase(level: nat, diffs: map<nat, T>, cur0: map<nat, T>, ghost start: seq<GraphNode<T>>,
                     ghost rest: seq<T>, ghost pend0: seq<T>, ghost credit0: seq<T>)
      returns (cur: map<nat, T>, ghost pend: seq<T>, ghost credit: seq<T>)
      requires Moving(start, pend0, credit0)
      requires Held(g, start, level, diffs, rest, pend0) && Credited(g, start, level, cur0, credit0)
      modifies this`nodes, this`frames, this`modifiedFrames
      ensures Moving(start, pend, credit)
      ensures Held(g, start, level, map[], rest, pend) && Credited(g, start, level, cur, credit)
      ensures Filled(old(nodes), nodes, diffs.Keys)
    {
      var left := diffs;
      cur, pend, credit := cur0, pend0, credit0;
      while left != map[]
        invariant Moving(start, pend, credit)
        invariant Held(g, start, level, left, rest, pend) && Credited(g, start, level, cur, credit)
        invariant Filled(old(nodes), nodes, diffs.Keys - left.Keys)
        decreases left.Keys
      {
        var id :| id in left.Keys;
        var diff := left[id];
        FilledMore(g, old(nodes), nodes, diffs.Keys, left.Keys, id, diff);
        ApplySelf(id, diff, start, pend, credit);
        SelfLinks(g, start, level, left, rest, pend, cur, credit, id);
        cur := Put(g, cur, id, diff);
        pend, credit := pend[id := g.zero], credit[id := g.add(credit[id], diff)];
        left := left - {id};
      }
    }

    // Adds a difference to the total of one node
    method ApplyTotal(id: nat, diff: T, ghost start: seq<GraphNode<T>>, ghost pend: seq<T>, ghost credit: seq<T>)
      requires Moving(start, pend, credit) && id < |nodes| && (id > 0 ==> nodes[id].parent < id) && credit[id] == diff
      modifies this`nodes, this`frames, this`modifiedFrames
      ensures nodes == AddTotal(g, old(nodes), id, diff)
      ensures Moving(start, pend, PassOn(g, old(nodes), credit, id))
    {
      TotalStep(g, nodes, frames, posted, pend, credit, id, diff);
      nodes := AddTotal(g, nodes, id, diff);
      if nodes[id].first {
        AggregateOnFrame(id, diff, false);
      }
    }

    // One turn of the loop over the accumulated differences of a level
    method PassUp(id: nat, level: nat, left: map<nat, T>, before: map<nat, T>,
                  ghost start: seq<GraphNode<T>>, ghost pend: seq<T>, ghost credit: seq<T>)
      returns (next: map<nat, T>, ghost passed: seq<T>)
      requires Moving(start, pend, credit) && Rising(g, start, level, left, before, credit) && id in left
      modifies this`nodes, this`frames, this`modifiedFrames
      ensures Moving(start, pend, passed) && Rising(g, start, level, left - {id}, next, passed)
      ensures Filled(old(nodes), nodes, {})
    {
      var diff := left[id];
      RootLevel(start, edges, id);
      RiseCredit(g, start, level, left, before, credit, id);
      RiseStep(g, start, edges, nodes, level, left, before, credit, id);
      passed := PassOn(g, nodes, credit, id);
      ApplyTotal(id, diff, start, pend, credit);
      next := Put(g, before, nodes[id].parent, diff);
    }

    // Adds the accumulated differences of one level to the totals and hands them on to the parents
    method TotalPhase(level: nat, cur: map<nat, T>, ghost start: seq<GraphNode<T>>, ghost pend: seq<T>,
                      ghost credit0: seq<T>)
      returns (next: map<nat, T>, ghost credit: seq<T>)
      requires Moving(start, pend, credit0) && Credited(g, start, level, cur, credit0)
      modifies this`nodes, this`frames, this`modifiedFrames
      ensures Moving(start, pend, credit)
      ensures level > 0 ==> Credited(g, start, level - 1, next, credit)
      ensures level == 0 ==> credit == Zeros(g, |start|)
      ensures Filled(old(nodes), nodes, {})
    {
      var left := cur;
      next, credit := map[], credit0;
      RiseStart(g, start, level, cur, credit);
      while left != map[]
        invariant Moving(start, pend, credit) && Rising(g, start, level, left, next, credit)
        invariant Filled(old(nodes), nodes, {})
        decreases left.Keys
      {
        var id :| id in left.Keys;
        next, credit := PassUp(id, level, left, next, start, pend, credit);
        left := left - {id};
      }
      RiseEnd(g, start, level, next, credit);
    }

    // One turn of the level loop
    method ProcessLevel(level: nat, cur: map<nat, T>, ghost start: seq<GraphNode<T>>, ghost credit0: seq<T>)
      returns (next: map<nat, T>, ghost credit: seq<T>)
      requires Moving(start, Pending(g, start, postponed), credit0) && Credited(g, start, level, cur, credit0)
      requires Filed(start, postponed) && Owed(nodes, postponed, modifiedSelf)
      modifies this`nodes, this`frames, this`modifiedFrames, this`postponed
      ensures postponed == old(postponed) - {level}
      ensures Moving(start, Pending(g, start, postponed), credit)
      ensures Filed(start, postponed) && Owed(nodes, postponed, modifiedSelf)
      ensures level > 0 ==> Credited(g, start, level - 1, next, credit)
      ensures level == 0 ==> credit == Zeros(g, |start|)
    {
      ghost var before := nodes;
      TakeLevel(g, start, postponed, level);
      var diffs := map[];
      if level in postponed {
        diffs := postponed[level];
        postponed := postponed - {level};
      }
      assert postponed == old(postponed) - {level};
      var acc;
      ghost var pend;
      acc, pend, credit := SelfPhase(level, diffs, cur, start,
                                     Pending(g, start, postponed), Pending(g, start, old(postponed)), credit0);
      LevelTaken(g, start, postponed, level, pend);
      StillOwed(before, nodes, old(postponed), level, modifiedSelf);
      ghost var middle := nodes;
      next, credit := TotalPhase(level, acc, start, pend, credit);
      StillOwed(middle, nodes, postponed, level, modifiedSelf);
      assert postponed - {level} == postponed;
    }

    // Propagates all postponed differences bottom-up, level by level
    method ProcessPostponedUpdates()
      requires Valid()
      modifies this`nodes, this`frames, this`modifiedFrames, this`postponed
      ensures Valid() && postponed == map[] && SameShape(old(nodes), nodes)
    {
      if postponed == map[] {
        return;
      }
      var maxLevel := MaxKey(postponed.Keys);
      ghost var start, credit := nodes, Zeros(g, |nodes|);
      var cur := map[];
      var level := maxLevel + 1;
      while level > 0
        invariant Moving(start, Pending(g, start, postponed), credit)
        invariant Filed(start, postponed) && Owed(nodes, postponed, modifiedSelf)
        invariant forall l :: l in postponed ==> l < level
        invariant level > 0 ==> Credited(g, start, level - 1, cur, credit)
        invariant level == 0 ==> credit == Zeros(g, |start|)
      {
        level := level - 1;
        cur, credit := ProcessLevel(level, cur, start, credit);
      }
      assert postponed == map[];
      ShapeKept(start, nodes, edges);
      assert Pending(g, start, postponed) == Pending(g, nodes, postponed);
    }

    // ----- interning paths

    // Adds the child of `parent` under a frame
    method AddNode(parent: nat, key: Frame, first: bool) returns (id: nat)
      requires Valid() && parent < |nodes| && Edge(parent, key) !in edges
      requires first <==> key !in Trace(nodes, edges, parent)
      modifies this`nodes, this`edges, this`posted
      ensures Valid() && id == |old(nodes)|
      ensures nodes == old(nodes) + [FreshNode(g, key, parent, old(nodes)[parent].level + 1, first)]
      ensures posted == old(posted) + [g.zero]
      ensures edges == old(edges)[Edge(parent, key) := id]
      ensures Trace(nodes, edges, id) == old(Trace(nodes, edges, parent)) + [key]
    {
      id := |nodes|;
      ghost var before, pend := nodes, Pending(g, nodes, postponed);
      var n := FreshNode(g, key, parent, nodes[parent].level + 1, first);
      GrowShape(g, nodes, edges, parent, key, first);
      ParentsInRange(nodes, edges);
      GrowBooks(g, nodes, frames, posted, pend, Zeros(g, |nodes|), n);
      edges := edges[Edge(parent, key) := id];
      nodes := nodes + [n];
      posted := posted + [g.zero];
      PendingGrows(g, before, n, postponed);
      assert Zeros(g, |before|) + [g.zero] == Zeros(g, |nodes|);
    }

    // Follows the edge of a frame, creating its node if needed
    method Follow(parent: nat, key: Frame, first: bool) returns (id: nat)
      requires Valid() && parent < |nodes|
      requires first <==> key !in Trace(nodes, edges, parent)
      modifies this`nodes, this`edges, this`posted
      ensures Valid() && id < |nodes|
      ensures Trace(nodes, edges, id) == old(Trace(nodes, edges, parent)) + [key]
      ensures Grew(g, old(nodes), old(posted), nodes, posted)
      ensures Edge(parent, key) in old(edges) ==> nodes == old(nodes) && edges == old(edges)
      ensures Edge(parent, key) !in old(edges) ==>
        id == |old(nodes)| && |nodes| == id + 1 && edges == old(edges)[Edge(parent, key) := id]
    {
      var edge := Edge(parent, key);
      if edge in edges {
        assert EdgeOk(nodes, edges, edge);
        id := edges[edge];
        assert NodeOk(nodes, edges, id);
      } else {
        id := AddNode(parent, key, first);
      }
    }

    method MarkAsLeaf(id: nat)
      requires Valid() && id < |nodes|
      modifies this`nodes, this`newLeaves
      ensures Valid() && nodes == old(nodes)[id := old(nodes)[id].(isLeaf := true)]
      ensures newLeaves == if old(nodes)[id].isLeaf then old(newLeaves) else old(newLeaves) + {id}
      ensures Trace(nodes, edges, id) == old(Trace(nodes, edges, id))
    {
      if !nodes[id].isLeaf {
        newLeaves := newLeaves + {id};
        ghost var marked := nodes[id := nodes[id].(isLeaf := true)];
        MarkLeaf(g, nodes, marked, edges, frames, posted, Pending(g, nodes, postponed), Zeros(g, |nodes|), id);
        assert Pending(g, marked, postponed) == Pending(g, nodes, postponed);
        nodes := nodes[id := nodes[id].(isLeaf := true)];
      }
    }

    // One frame further on the way to the node of a trace
    method NextFrame(id0: nat, trace: seq<Frame>, k: nat, first: bool,
                     ghost start: seq<GraphNode<T>>, ghost postedStart: seq<T>)
      returns (id: nat)
      requires Valid() && k < |trace| && id0 < |nodes| && Trace(nodes, edges, id0) == trace[..k]
      requires first <==> trace[k] !in trace[..k]
      requires Grew(g, start, postedStart, nodes, posted) && Prefixes(nodes, edges, |start|, trace)
      modifies this`nodes, this`edges, this`posted
      ensures Valid() && id < |nodes| && Trace(nodes, edges, id) == trace[..k + 1]
      ensures Grew(g, start, postedStart, nodes, posted) && Prefixes(nodes, edges, |start|, trace)
    {
      assert trace[..k + 1] == trace[..k] + [trace[k]];
      ghost var before, edgesBefore, postedBefore := nodes, edges, posted;
      id := Follow(id0, trace[k], first);
      GrewExtends(g, before, postedBefore, nodes, posted);
      PrefixesMore(before, edgesBefore, nodes, edges, |start|, trace);
      GrewMore(g, start, postedStart, before, postedBefore, nodes, posted);
    }

    // Finds or creates the node for a trace
    method WalkDown(trace: seq<Frame>) returns (id: nat)
      requires Valid()
      modifies this`nodes, this`edges, this`posted
      ensures Valid() && id < |nodes| && Trace(nodes, edges, id) == trace
      ensures Grew(g, old(nodes), old(posted), nodes, posted) && Prefixes(nodes, edges, |old(nodes)|, trace)
    {
      var seen: set<Frame> := {};
      id := 0;
      GrewNot(g, nodes, posted);
      for k := 0 to |trace|
        invariant Valid() && id < |nodes| && Trace(nodes, edges, id) == trace[..k]
        invariant seen == set f | f in trace[..k]
        invariant Grew(g, old(nodes), old(posted), nodes, posted) && Prefixes(nodes, edges, |old(nodes)|, trace)
      {
        var first := trace[k] !in seen;
        seen := seen + {trace[k]};
        id := NextFrame(id, trace, k, first, old(nodes), old(posted));
      }
      assert trace[..|trace|] == trace;
    }

    // Finds or creates the node for a trace and marks it as a leaf
    method ConstructPath(trace: seq<Frame>) returns (id: nat)
      requires Valid()
      modifies this`nodes, this`edges, this`posted, this`newLeaves
      ensures Valid() && id < |nodes| && Trace(nodes, edges, id) == trace
      ensures Interned(g, old(nodes), old(posted), nodes, posted, id)
      ensures Prefixes(nodes, edges, |old(nodes)|, trace)
      ensures newLeaves == if id < |old(nodes)| && old(nodes)[id].isLeaf then old(newLeaves) else old(newLeaves) + {id}
    {
      id := WalkDown(trace);
      GrewInterned(g, old(nodes), old(posted), nodes, posted, id);
      ghost var before := nodes;
      MarkAsLeaf(id);
      PrefixesMarked(before, nodes, edges, |old(nodes)|, trace, id);
    }

    // ----- posting differences

    // Files a difference under the level of its node
    method PostponeDiffUpdate(id: nat, diff: T)
      requires Valid() && id < |nodes|
      modifies this`postponed, this`modifiedSelf, this`posted
      ensures Valid()
      ensures posted == old(posted)[id := g.add(old(posted)[id], diff)]
      ensures modifiedSelf == old(modifiedSelf) + {id}
    {
      var level := nodes[id].level;
      var levelMap := if level in postponed then postponed[level] else map[];
      PostBooks(g, nodes, frames, posted, Pending(g, nodes, postponed), Zeros(g, |nodes|), id, diff);
      PendingPosts(g, nodes, postponed, levelMap, id, diff);
      StillOwedMore(nodes, postponed, modifiedSelf, level, Put(g, levelMap, id, diff), id);
      postponed := postponed[level := Put(g, levelMap, id, diff)];
      modifiedSelf := modifiedSelf + {id};
      posted := posted[id := g.add(posted[id], diff)];
    }

    // ----- reading out

    // Hands out what changed since the last call. A node that was posted to must have been processed.
    method ConsumeModifications() returns (leaves: set<nat>, changedFrames: map<Frame, Aggregate<T>>,
                                           changedSelf: map<nat, T>)
      requires Valid()
      requires forall i :: i in modifiedSelf ==> nodes[i].agg.self.Some?
      modifies this`newLeaves, this`modifiedFrames, this`modifiedSelf, this`reported
      ensures Valid() && newLeaves == {} && modifiedFrames == {} && modifiedSelf == {}
      ensures reported == frames == old(reported) + changedFrames
      ensures leaves == old(newLeaves)
      ensures changedFrames.Keys == old(modifiedFrames)
      ensures forall f :: f in changedFrames ==> changedFrames[f] == frames[f]
      ensures changedSelf.Keys == old(modifiedSelf)
      ensures forall i :: i in changedSelf ==> changedSelf[i] == Own(g, nodes[i].agg)
    {
      leaves := newLeaves;
      changedSelf := map i | i in modifiedSelf :: nodes[i].agg.self.value;
      changedFrames := map f | f in modifiedFrames :: frames[f];
      ReportFollows(frames, modifiedFrames, reported, changedFrames);
      reported := frames;
      newLeaves, modifiedFrames, modifiedSelf := {}, {}, {};
    }

    // The nodes from the root down to `id`
    method Backtrace(id: nat) returns (path: seq<nat>)
      requires Valid() && id < |nodes|
      ensures path == Chain(nodes, edges, id)
    {
      var up: seq<nat> := [id];
      var cur: nat := id;
      while cur != 0
        invariant cur < |nodes|
        invariant |up| > 0
        invariant Chain(nodes, edges, id) == Chain(nodes, edges, cur)[..|Chain(nodes, edges, cur)| - 1] + Reversed(up)
        invariant up[|up| - 1] == cur
        decreases cur
      {
        assert NodeOk(nodes, edges, cur);
        ghost var above := Chain(nodes, edges, nodes[cur].parent);
        cur := nodes[cur].parent;
        up := up + [cur];
        ChainEnds(nodes, edges, cur);
        assert Reversed(up) == [cur] + Reversed(up[..|up| - 1]) by { assert up[..|up| - 1] + [cur] == up; }
      }
      path := Reversed(up);
    }
  }

  // The keys along the chain, without the root's, spell the trace of the node
  lemma {:induction false} ChainSpellsTrace<T>(nodes: seq<GraphNode<T>>, edges: map<Edge, nat>, i: nat)
    requires Shaped(nodes, edges) && i < |nodes|
    ensures var c := Chain(nodes, edges, i);
      var tr := Trace(nodes, edges, i);
      && |c| == |tr| + 1
      && forall k :: 0 < k < |c| ==> c[k] < |nodes| && nodes[c[k]].key == tr[k - 1] && nodes[c[k]].parent == c[k - 1]
    decreases i
  {
    if i > 0 {
      assert NodeOk(nodes, edges, i);
      ChainSpellsTrace(nodes, edges, nodes[i].parent);
      ChainEnds(nodes, edges, nodes[i].parent);
    }
  }
}
