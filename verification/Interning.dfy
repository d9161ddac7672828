/**
  Interning of stack traces: a trie of parent links whose node numbers serve as trace ids.
  The trie is described by the list of its node names: the name of a node is the sequence of frames
  from the outermost one to the node's own.
*/
module Names {

  import opened Collapse

  type Name = seq<Frame>

  /** The frames of a trace that are not null. */
  function Filtered(trace: seq<Frame>): (r: seq<Frame>)
    ensures |r| <= |trace|
  {
    if trace == [] then [] else (if trace[0] == 0 then [] else [trace[0]]) + Filtered(trace[1..])
  }

  /** The same frames, outermost first: the name under which a trace is interned. */
  function Outward(trace: seq<Frame>): (r: Name)
    ensures |r| <= |trace|
  {
    if trace == [] then [] else Outward(trace[1..]) + (if trace[0] == 0 then [] else [trace[0]])
  }

  function Inward(name: Name): (r: seq<Frame>)
    ensures |r| == |name|
  {
    if name == [] then [] else [name[|name| - 1]] + Inward(name[..|name| - 1])
  }

  lemma FilteredFirst(trace: seq<Frame>)
    requires trace != []
    ensures Filtered(trace) == if trace[0] == 0 then Filtered(trace[1..]) else [trace[0]] + Filtered(trace[1..])
  {
    assert [] + Filtered(trace[1..]) == Filtered(trace[1..]);
  }

  lemma Prefixed(f: Frame, x: seq<Frame>, y: seq<Frame>, less: seq<Frame>, more: seq<Frame>)
    requires less == if f == 0 then x else [f] + x
    requires more == if f == 0 then x + y else [f] + (x + y)
    ensures more == less + y
  {
  }

  lemma FilteredLonger(a: seq<Frame>, all: seq<Frame>, x: seq<Frame>, y: seq<Frame>)
    requires a != [] && all != [] && a[0] == all[0] && Filtered(a[1..]) == x && Filtered(all[1..]) == x + y
    ensures Filtered(all) == Filtered(a) + y
  {
    FilteredFirst(a);
    FilteredFirst(all);
    Prefixed(a[0], x, y, Filtered(a), Filtered(all));
  }

  /** Exactly the null frames go, the others stay in their order. */
  lemma {:induction false} FilteredJoins(a: seq<Frame>, b: seq<Frame>)
    ensures Filtered(a + b) == Filtered(a) + Filtered(b)
    ensures forall f :: Filtered([f]) == if f == 0 then [] else [f]
  {
    if a == [] {
      assert a + b == b && Filtered([]) + Filtered(b) == Filtered(b);
    } else {
      FilteredJoins(a[1..], b);
      assert (a + b)[1..] == a[1..] + b;
      FilteredLonger(a, a + b, Filtered(a[1..]), Filtered(b));
    }
  }

  lemma {:induction false} InwardOfName(trace: seq<Frame>)
    ensures Inward(Outward(trace)) == Filtered(trace)
  {
    if trace != [] {
      InwardOfName(trace[1..]);
      var outer := Outward(trace[1..]);
      if trace[0] != 0 {
        assert (outer + [trace[0]])[..|outer|] == outer;
      } else {
        assert outer + [] == outer;
      }
    }
  }

  lemma {:induction false} InwardIsInjective(a: Name, b: Name)
    requires Inward(a) == Inward(b)
    ensures a == b
  {
    if a != [] && b != [] {
      assert Inward(a)[1..] == Inward(a[..|a| - 1]) && Inward(b)[1..] == Inward(b[..|b| - 1]);
      InwardIsInjective(a[..|a| - 1], b[..|b| - 1]);
      assert a == a[..|a| - 1] + [Inward(a)[0]] && b == b[..|b| - 1] + [Inward(b)[0]];
    }
  }

  /** Two traces have the same name exactly when they have the same frames besides null. */
  lemma SameName(t: seq<Frame>, u: seq<Frame>)
    ensures Outward(t) == Outward(u) <==> Filtered(t) == Filtered(u)
  {
    InwardOfName(t);
    InwardOfName(u);
    if Filtered(t) == Filtered(u) {
      InwardIsInjective(Outward(t), Outward(u));
    }
  }

  // ----- the list of names

  ghost predicate Unique(names: seq<Name>) {
    forall i, j :: 0 <= i < j < |names| ==> names[i] != names[j]
  }

  ghost predicate Enclosed(names: seq<Name>, name: Name) {
    name != [] && name[..|name| - 1] in names
  }

  /** The names of a trie: the root first, then only names whose enclosing name is there too. */
  ghost predicate Tree(names: seq<Name>) {
    && |names| > 0 && names[0] == []
    && Unique(names)
    && forall n {:trigger Enclosed(names, names[n])} :: 1 <= n < |names| ==> Enclosed(names, names[n])
  }

  /** One step further down: the name is added at the end unless it is there. */
  function Added(names: seq<Name>, name: Name): (r: seq<Name>)
    ensures name in r && names <= r
  {
    if name in names then names else names + [name]
  }

  /** Interning a name: all its prefixes are added, shortest first. */
  function Grow(names: seq<Name>, name: Name): (r: seq<Name>)
    ensures names <= r
    decreases |name|
  {
    if name == [] then names else Added(Grow(names, name[..|name| - 1]), name)
  }

  function Find(names: seq<Name>, name: Name): (i: nat)
    requires name in names
    ensures i < |names| && names[i] == name
  {
    if names[0] == name then 0 else 1 + Find(names[1..], name)
  }

  /** One frame more of the trace. */
  lemma GrowNext(names: seq<Name>, trace: seq<Frame>, i: nat)
    requires i < |trace|
    ensures trace[i] == 0 ==> Outward(trace[i..]) == Outward(trace[i + 1..])
    ensures trace[i] != 0 ==>
      && Outward(trace[i..]) == Outward(trace[i + 1..]) + [trace[i]]
      && Grow(names, Outward(trace[i..])) == Added(Grow(names, Outward(trace[i + 1..])), Outward(trace[i..]))
  {
    assert trace[i..][1..] == trace[i + 1..];
    var outer := Outward(trace[i + 1..]);
    assert outer + [] == outer;
    assert (outer + [trace[i]])[..|outer|] == outer;
  }

  lemma AddedTree(names: seq<Name>, name: Name)
    requires Tree(names) && Enclosed(names, name)
    ensures Tree(Added(names, name))
  {
    var more := Added(names, name);
    forall n {:trigger Enclosed(more, more[n])} | 1 <= n < |more| ensures Enclosed(more, more[n]) {
      if n < |names| {
        assert Enclosed(names, names[n]);
      }
    }
  }

  lemma {:induction false} GrowTree(names: seq<Name>, name: Name)
    requires Tree(names)
    ensures Tree(Grow(names, name)) && name in Grow(names, name)
    decreases |name|
  {
    if name == [] {
      assert names[0] == name;
    } else {
      GrowTree(names, name[..|name| - 1]);
      AddedTree(Grow(names, name[..|name| - 1]), name);
    }
  }

  /** A name that is there is not added again. */
  lemma {:induction false} GrowAgain(names: seq<Name>, name: Name)
    requires Tree(names) && name in names
    ensures Grow(names, name) == names
    decreases |name|
  {
    if name != [] {
      var n :| 0 <= n < |names| && names[n] == name;
      assert Enclosed(names, names[n]);
      GrowAgain(names, name[..|name| - 1]);
    }
  }

  /** Numbers keep their names while the list grows. */
  lemma FindStable(names: seq<Name>, more: seq<Name>, name: Name)
    requires name in names && names <= more && Unique(more)
    ensures name in more && Find(more, name) == Find(names, name)
  {
    var i := Find(names, name);
    assert more[i] == names[i] == name;
  }

  // ----- whole runs

  /** The names after interning the traces in order. */
  function After(traces: seq<seq<Frame>>): (r: seq<Name>) {
    if traces == [] then [[]] else Grow(After(traces[..|traces| - 1]), Outward(traces[|traces| - 1]))
  }

  lemma {:induction false} AfterIsTree(traces: seq<seq<Frame>>)
    ensures Tree(After(traces))
  {
    if traces != [] {
      AfterIsTree(traces[..|traces| - 1]);
      GrowTree(After(traces[..|traces| - 1]), Outward(traces[|traces| - 1]));
    }
  }

  lemma {:induction false} AfterGrows(traces: seq<seq<Frame>>, i: nat)
    requires i <= |traces|
    ensures After(traces[..i]) <= After(traces)
  {
    if i == |traces| {
      assert traces[..i] == traces;
    } else {
      var less := traces[..|traces| - 1];
      AfterGrows(less, i);
      assert less[..i] == traces[..i];
    }
  }

  /** The id that the i-th insertion of a run returns. */
  function IdOf(traces: seq<seq<Frame>>, i: nat): (id: nat)
    requires i < |traces|
  {
    var names := After(traces[..i + 1]);
    if Outward(traces[i]) in names then Find(names, Outward(traces[i])) else 0
  }

  /** An id names its trace in the state after the insertion and in every later one. */
  lemma IdIsStable(traces: seq<seq<Frame>>, i: nat)
    requires i < |traces|
    ensures IdOf(traces, i) < |After(traces)|
    ensures After(traces)[IdOf(traces, i)] == Outward(traces[i])
    ensures Inward(After(traces)[IdOf(traces, i)]) == Filtered(traces[i])
  {
    var upto := traces[..i + 1];
    assert upto[..i] == traces[..i];
    AfterIsTree(traces[..i]);
    GrowTree(After(traces[..i]), Outward(traces[i]));
    AfterGrows(traces, i + 1);
    InwardOfName(traces[i]);
  }

  /** Two insertions of a run get the same id exactly when their traces agree besides null frames. */
  lemma SameIdIff(traces: seq<seq<Frame>>, i: nat, j: nat)
    requires i < |traces| && j < |traces|
    ensures IdOf(traces, i) == IdOf(traces, j) <==> Filtered(traces[i]) == Filtered(traces[j])
  {
    IdIsStable(traces, i);
    IdIsStable(traces, j);
    AfterIsTree(traces);
    SameName(traces[i], traces[j]);
  }
}

module Interning {

  import opened Options
  import opened Collapse
  import opened Names

  datatype TraceNode = TraceNode(id: nat, parent: nat)

  // ----- what the maps of the tree hold

  /** ptrs lists the known frame addresses in the order of their ids. */
  ghost predicate PtrsOk(ptrMap: map<Frame, nat>, revPtrMap: map<nat, Frame>, ptrs: seq<Frame>) {
    && |ptrMap| == |ptrs|
    && (forall p :: p in ptrMap ==> ptrMap[p] < |ptrs| && ptrs[ptrMap[p]] == p)
    && (forall i :: 0 <= i < |ptrs| ==> ptrs[i] in ptrMap && ptrMap[ptrs[i]] == i)
    && (forall i: nat :: i in revPtrMap <==> i < |ptrs|)
    && (forall i :: 0 <= i < |ptrs| ==> revPtrMap[i] == ptrs[i])
  }

  /** Every node but the root extends the name of an earlier node by one frame. */
  ghost predicate NodesOk(nodes: seq<TraceNode>, names: seq<Name>, ptrs: seq<Frame>) {
    && |nodes| == |names|
    && forall n {:trigger nodes[n]} :: 1 <= n < |nodes| ==>
         && nodes[n].parent < n && nodes[n].id < |ptrs|
         && names[n] == names[nodes[n].parent] + [ptrs[nodes[n].id]]
  }

  ghost predicate EdgesOk(edges: map<(nat, nat), nat>, nodes: seq<TraceNode>) {
    && (forall e {:trigger edges[e]} :: e in edges ==>
          1 <= edges[e] < |nodes| && nodes[edges[e]] == TraceNode(e.1, e.0))
    && (forall n {:trigger nodes[n]} :: 1 <= n < |nodes| ==>
          (nodes[n].parent, nodes[n].id) in edges && edges[(nodes[n].parent, nodes[n].id)] == n)
  }

  ghost predicate Short(names: seq<Name>) {
    forall n :: 0 <= n < |names| ==> |names[n]| <= MAX_UNWIND_DEPTH
  }

  lemma PtrLearned(ptrMap: map<Frame, nat>, revPtrMap: map<nat, Frame>, ptrs: seq<Frame>, p: Frame)
    requires PtrsOk(ptrMap, revPtrMap, ptrs) && p !in ptrMap
    ensures PtrsOk(ptrMap[p := |ptrMap|], revPtrMap[|ptrMap| := p], ptrs + [p])
  {
  }

  lemma NodesKeepWithPtrs(nodes: seq<TraceNode>, names: seq<Name>, ptrs: seq<Frame>, more: seq<Frame>)
    requires NodesOk(nodes, names, ptrs) && ptrs <= more
    ensures NodesOk(nodes, names, more)
  {
  }

  lemma LastFrame(a: Name, p: Frame, b: Name, q: Frame)
    requires a + [p] == b + [q]
    ensures a == b && p == q
  {
    assert a == (a + [p])[..|a|] && b == (b + [q])[..|b|];
    assert p == (a + [p])[|a|] && q == (b + [q])[|b|];
  }

  /** A node whose name is one frame longer hangs below, by that frame. */
  lemma NodeOfName(nodes: seq<TraceNode>, names: seq<Name>, ptrs: seq<Frame>, at: nat, p: Frame, n: nat)
    requires NodesOk(nodes, names, ptrs) && Tree(names) && at < |nodes| && n < |nodes| && names[n] == names[at] + [p]
    ensures n > 0 && nodes[n].parent == at && nodes[n].id < |ptrs| && ptrs[nodes[n].id] == p
  {
    var outer, q := names[nodes[n].parent], ptrs[nodes[n].id];
    LastFrame(outer, q, names[at], p);
  }

  /** A name below a node is there exactly when the edge is. */
  lemma EdgeIff(nodes: seq<TraceNode>, names: seq<Name>, ptrs: seq<Frame>, edges: map<(nat, nat), nat>,
                ptrMap: map<Frame, nat>,
                revPtrMap: map<nat, Frame>, at: nat, p: Frame)
    requires PtrsOk(ptrMap, revPtrMap, ptrs) && NodesOk(nodes, names, ptrs) && EdgesOk(edges, nodes) && Tree(names)
    requires at < |nodes| && p in ptrMap
    ensures (at, ptrMap[p]) in edges ==>
      edges[(at, ptrMap[p])] < |names| && names[edges[(at, ptrMap[p])]] == names[at] + [p]
    ensures (at, ptrMap[p]) !in edges ==> names[at] + [p] !in names
  {
    if (at, ptrMap[p]) in edges {
      var n := edges[(at, ptrMap[p])];
      assert nodes[n] == TraceNode(ptrMap[p], at);
    }
    if names[at] + [p] in names {
      var n :| 0 <= n < |names| && names[n] == names[at] + [p];
      NodeOfName(nodes, names, ptrs, at, p, n);
    }
  }

  lemma NodeAdded(nodes: seq<TraceNode>, names: seq<Name>, ptrs: seq<Frame>, id: nat, at: nat, p: Frame)
    requires NodesOk(nodes, names, ptrs) && at < |nodes| && id < |ptrs| && ptrs[id] == p
    ensures NodesOk(nodes + [TraceNode(id, at)], names + [names[at] + [p]], ptrs)
  {
  }

  lemma EdgeAdded(nodes: seq<TraceNode>, edges: map<(nat, nat), nat>, id: nat, at: nat, counter: nat)
    requires EdgesOk(edges, nodes) && at < |nodes| == counter && (at, id) !in edges
    ensures EdgesOk(edges[(at, id) := counter], nodes + [TraceNode(id, at)])
  {
  }

  lemma NameAdded(names: seq<Name>, at: nat, p: Frame)
    requires Tree(names) && Short(names) && at < |names| && names[at] + [p] !in names && |names[at]| < MAX_UNWIND_DEPTH
    ensures Tree(names + [names[at] + [p]]) && Short(names + [names[at] + [p]])
  {
    var name := names[at] + [p];
    assert name[..|name| - 1] == names[at];
    AddedTree(names, name);
  }

  lemma RootOnly()
    ensures NodesOk([TraceNode(0, 0)], [[]], [0]) && EdgesOk(map[], [TraceNode(0, 0)])
    ensures PtrsOk(map[0 := 0], map[0 := 0], [0])
  {
  }

  lemma ParentName(nodes: seq<TraceNode>, names: seq<Name>, ptrs: seq<Frame>, n: nat, filled: seq<Frame>)
    requires NodesOk(nodes, names, ptrs) && 1 <= n < |nodes|
    ensures nodes[n].parent < n && nodes[n].id < |ptrs| && |names[n]| == |names[nodes[n].parent]| + 1
    ensures filled + Inward(names[n]) == filled + [ptrs[nodes[n].id]] + Inward(names[nodes[n].parent])
  {
    var p, outer := ptrs[nodes[n].id], names[nodes[n].parent];
    assert (outer + [p])[..|outer|] == outer;
    assert filled + ([p] + Inward(outer)) == filled + [p] + Inward(outer);
  }

  method Put(buffer: array<Frame>, i: nat, p: Frame)
    requires i < buffer.Length
    modifies buffer
    ensures buffer[..i + 1] == old(buffer[..i]) + [p]
  {
    buffer[i] := p;
  }

  class StacktraceTracker {
    // the tree
    var nodesCounter: nat
    var edges: map<(nat, nat), nat>
    var ptrMap: map<Frame, nat>
    var revPtrMap: map<nat, Frame>
    // the node list beside it
    var nodes: seq<TraceNode>
    var leafs: set<nat>

    ghost var names: seq<Name>
    ghost var ptrs: seq<Frame>

    ghost predicate Valid()
      reads this
    {
      && PtrsOk(ptrMap, revPtrMap, ptrs) && NodesOk(nodes, names, ptrs) && EdgesOk(edges, nodes)
      && Tree(names) && Short(names)
      && nodesCounter == |nodes|
      && forall l :: l in leafs ==> l < |nodes|
    }

    /** The root node is there from the start, under the id of the null address. */
    constructor ()
      ensures Valid() && names == [[]] && leafs == {} && ptrs == [0]
    {
      nodesCounter := 1;
      edges := map[];
      ptrMap := map[0 := 0];
      revPtrMap := map[0 := 0];
      nodes := [TraceNode(0, 0)];
      leafs := {};
      names := [[]];
      ptrs := [0];
      RootOnly();
    }

    method GetPtrId(p: Frame) returns (id: nat)
      requires Valid()
      modifies `ptrMap, `revPtrMap, `ptrs
      ensures Valid() && p in ptrMap && ptrMap[p] == id && old(ptrs) <= ptrs
      ensures p in old(ptrMap) ==> ptrMap == old(ptrMap) && revPtrMap == old(revPtrMap) && ptrs == old(ptrs)
      ensures p !in old(ptrMap) ==> id == |old(ptrs)| && ptrMap == old(ptrMap)[p := id]
      ensures p !in old(ptrMap) ==> revPtrMap == old(revPtrMap)[id := p] && ptrs == old(ptrs) + [p]
    {
      if p !in ptrMap {
        PtrLearned(ptrMap, revPtrMap, ptrs, p);
        NodesKeepWithPtrs(nodes, names, ptrs, ptrs + [p]);
        id := |ptrMap|;
        ptrMap := ptrMap[p := id];
        revPtrMap := revPtrMap[id := p];
        ptrs := ptrs + [p];
      }
      id := ptrMap[p];
    }

    /** The callback and the insertion of the edge: node list and counter move on together. */
    method AddNode(p: Frame, id: nat, parent: nat)
      requires Valid() && parent < |nodes| && id < |ptrs| && (parent, id) !in edges && ptrs[id] == p
      requires names[parent] + [p] !in names && |names[parent]| < MAX_UNWIND_DEPTH
      modifies `nodes, `edges, `nodesCounter, `names
      ensures Valid() && names == old(names) + [old(names)[parent] + [p]]
      ensures (parent, id) in edges && edges[(parent, id)] == old(|names|)
    {
      NodeAdded(nodes, names, ptrs, id, parent, p);
      EdgeAdded(nodes, edges, id, parent, nodesCounter);
      NameAdded(names, parent, p);
      nodes := nodes + [TraceNode(id, parent)];
      edges := edges[(parent, id) := nodesCounter];
      nodesCounter := nodesCounter + 1;
      names := names + [names[parent] + [p]];
    }

    /** One frame of the walk. */
    method Step(at: nat, p: Frame) returns (next: nat)
      requires Valid() && at < |nodes| && |names[at]| < MAX_UNWIND_DEPTH
      modifies `nodes, `edges, `nodesCounter, `names, `ptrMap, `revPtrMap, `ptrs
      ensures Valid() && names == Added(old(names), old(names)[at] + [p])
      ensures next < |names| && names[next] == old(names)[at] + [p]
    {
      var id := GetPtrId(p);
      EdgeIff(nodes, names, ptrs, edges, ptrMap, revPtrMap, at, p);
      if (at, id) !in edges {
        AddNode(p, id, at);
      }
      next := edges[(at, id)];
    }

    /** Walks the trace from its outermost frame; null frames are passed over. */
    method Index(trace: seq<Frame>) returns (nodeId: nat)
      requires Valid() && |trace| <= MAX_UNWIND_DEPTH
      modifies `nodes, `edges, `nodesCounter, `names, `ptrMap, `revPtrMap, `ptrs
      ensures Valid() && names == Grow(old(names), Outward(trace))
      ensures nodeId < |names| && names[nodeId] == Outward(trace)
    {
      nodeId := 0;
      var i: nat := |trace|;
      while i > 0
        invariant i <= |trace| && Valid()
        invariant names == Grow(old(names), Outward(trace[i..]))
        invariant nodeId < |names| && names[nodeId] == Outward(trace[i..])
      {
        i := i - 1;
        var p := trace[i];
        GrowNext(old(names), trace, i);
        if p != 0 {
          nodeId := Step(nodeId, p);
        }
      }
      assert trace[0..] == trace;
    }

    method InsertStacktrace(trace: seq<Frame>) returns (traceId: nat)
      requires Valid() && |trace| <= MAX_UNWIND_DEPTH
      modifies this
      ensures Valid() && names == Grow(old(names), Outward(trace)) && leafs == old(leafs) + {traceId}
      ensures traceId < |names| && names[traceId] == Outward(trace)
    {
      traceId := Index(trace);
      leafs := leafs + {traceId};
    }

    /** The walk along the parent links fills at most MAX_UNWIND_DEPTH places. */
    method GetStacktrace(traceId: nat) returns (trace: seq<Frame>)
      requires Valid() && traceId < |nodes| == |names|
      ensures trace == Inward(names[traceId])
    {
      var buffer := new Frame[MAX_UNWIND_DEPTH](_ => 0);
      var traceIt: nat := 0;
      var nodeId: nat := traceId;
      while nodeId != 0
        invariant nodeId < |nodes| == |names| && traceIt + |names[nodeId]| <= MAX_UNWIND_DEPTH
        invariant buffer[..traceIt] + Inward(names[nodeId]) == Inward(names[traceId])
        decreases nodeId
      {
        ParentName(nodes, names, ptrs, nodeId, buffer[..traceIt]);
        var node := nodes[nodeId];
        var ptrValue := revPtrMap[node.id];
        Put(buffer, traceIt, ptrValue);
        traceIt := traceIt + 1;
        nodeId := node.parent;
      }
      assert names[0] == [];
      trace := buffer[..traceIt];
    }

    /** Only ids that were handed out are looked up. */
    method GetStacktraceFromId(traceId: nat) returns (r: Option<seq<Frame>>)
      requires Valid()
      ensures traceId !in leafs ==> r == None
      ensures traceId in leafs ==> traceId < |names| && r == Some(Inward(names[traceId]))
    {
      if traceId >= |nodes| || traceId !in leafs {
        return None;
      }
      var trace := GetStacktrace(traceId);
      r := Some(trace);
    }
  }
}
