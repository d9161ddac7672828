/**
 The paths that traces are shown at, position by position: the symbols of a
 frame stand behind those of all frames that called it, and nothing else is on
 the path. Traces with the same callers share the part of the path that these
 callers make up.
 */
module TracePaths {
  import opened Options
  import opened Tallies
  import opened CallTree
  import opened CallGraph
  import opened Attribution
  import opened Writer
  import opened Reader
  import opened Session

  // The 64-bit address before a return address
  function Preceding(ptr: nat): (r: nat) {
    if ptr > 0 then ptr - 1 else 0x1_0000_0000_0000_0000 - 1
  }

  // How many symbols the frames of a trace have
  ghost function Breadth(sym: nat -> seq<Frame>, trace: seq<nat>): (r: nat) {
    if trace == [] then 0 else Breadth(sym, trace[1..]) + |sym(Preceding(trace[0]))|
  }

  // The symbols of frame j of a trace, innermost frame first, stand on the path behind those of its callers
  ghost predicate StandsAt(sym: nat -> seq<Frame>, trace: seq<nat>, path: seq<Frame>, j: nat)
    requires j < |trace|
  {
    var symbols, behind := sym(Preceding(trace[j])), Breadth(sym, trace[j + 1..]);
    behind + |symbols| <= |path| && path[behind..behind + |symbols|] == symbols
  }

  // The path consists of the symbols of the frames, outermost frame first
  ghost predicate Spelled(sym: nat -> seq<Frame>, trace: seq<nat>, path: seq<Frame>) {
    |path| == Breadth(sym, trace) && forall j :: 0 <= j < |trace| ==> StandsAt(sym, trace, path, j)
  }

  lemma StandsBehind(sym: nat -> seq<Frame>, trace: seq<nat>, outer: seq<Frame>, path: seq<Frame>, j: nat)
    requires 1 <= j < |trace| && outer <= path && StandsAt(sym, trace[1..], outer, j - 1)
    ensures StandsAt(sym, trace, path, j)
  {
    assert trace[1..][j..] == trace[j + 1..];
    var symbols, behind := sym(Preceding(trace[j])), Breadth(sym, trace[j + 1..]);
    assert path[behind..behind + |symbols|] == outer[behind..behind + |symbols|];
  }

  lemma {:induction false} SymbolsSpell(sym: nat -> seq<Frame>, trace: seq<nat>)
    ensures Spelled(sym, trace, Symbols(sym, Addresses(trace)))
  {
    if trace != [] {
      var rest, addrs := trace[1..], Addresses(trace);
      SymbolsSpell(sym, rest);
      var outer, path := Symbols(sym, Addresses(rest)), Symbols(sym, addrs);
      assert addrs[..|addrs| - 1] == Addresses(rest);
      assert path == outer + sym(Preceding(trace[0]));
      forall j | 0 <= j < |trace| ensures StandsAt(sym, trace, path, j) {
        if j > 0 {
          assert StandsAt(sym, rest, outer, j - 1);
          StandsBehind(sym, trace, outer, path, j);
        }
      }
    }
  }

  lemma {:induction false} BreadthShrinks(sym: nat -> seq<Frame>, trace: seq<nat>, j: nat)
    requires j < |trace|
    ensures Breadth(sym, trace[j + 1..]) + |sym(Preceding(trace[j]))| <= Breadth(sym, trace)
  {
    if j > 0 {
      assert trace[1..][j..] == trace[j + 1..];
      BreadthShrinks(sym, trace[1..], j - 1);
    }
  }

  lemma StandsOutside(sym: nat -> seq<Frame>, trace: seq<nat>, path: seq<Frame>, outer: seq<Frame>, j: nat)
    requires 1 <= j < |trace| && StandsAt(sym, trace, path, j)
    requires |outer| == Breadth(sym, trace[1..]) && outer <= path
    ensures StandsAt(sym, trace[1..], outer, j - 1)
  {
    assert trace[1..][j..] == trace[j + 1..];
    BreadthShrinks(sym, trace[1..], j - 1);
    var symbols, behind := sym(Preceding(trace[j])), Breadth(sym, trace[j + 1..]);
    assert path[behind..behind + |symbols|] == outer[behind..behind + |symbols|];
  }

  lemma SpelledOuter(sym: nat -> seq<Frame>, trace: seq<nat>, path: seq<Frame>, outer: seq<Frame>)
    requires trace != [] && Spelled(sym, trace, path) && outer == path[..Breadth(sym, trace[1..])]
    ensures Spelled(sym, trace[1..], outer) && path == outer + sym(Preceding(trace[0]))
  {
    assert StandsAt(sym, trace, path, 0);
    forall j | 0 <= j < |trace[1..]| ensures StandsAt(sym, trace[1..], outer, j) {
      assert StandsAt(sym, trace, path, j + 1);
      StandsOutside(sym, trace, path, outer, j + 1);
    }
  }

  // There is only one such path
  lemma {:induction false} SpelledOnce(sym: nat -> seq<Frame>, trace: seq<nat>, a: seq<Frame>, b: seq<Frame>)
    requires Spelled(sym, trace, a) && Spelled(sym, trace, b)
    ensures a == b
  {
    if trace != [] {
      var n := Breadth(sym, trace[1..]);
      assert StandsAt(sym, trace, a, 0);
      SpelledOuter(sym, trace, a, a[..n]);
      SpelledOuter(sym, trace, b, b[..n]);
      SpelledOnce(sym, trace[1..], a[..n], b[..n]);
    }
  }

  // ----- the paths of the traces

  // Traces from 2^31 - 1 on are the profiler's own and stand under its root
  ghost predicate ShownAt(sym: nat -> seq<Frame>, id: nat, trace: seq<nat>, path: seq<Frame>) {
    if id < 0x7FFF_FFFF then Spelled(sym, trace, path)
    else path != [] && path[0] == MEMHAWK_FRAME && Spelled(sym, trace, path[1..])
  }

  // Every trace that is found is shown at the symbols of its frames
  lemma FoundIsShown(sym: nat -> seq<Frame>, find: nat -> Option<seq<nat>>, id: nat)
    requires find(id).Some?
    ensures ShownAt(sym, id, find(id).value, NamedPath(sym, find, id))
  {
    var trace, path := find(id).value, NamedPath(sym, find, id);
    SymbolsSpell(sym, trace);
    if id < 0x7FFF_FFFF {
      assert path == Symbols(sym, Addresses(trace));
    } else {
      assert path[1..] == Symbols(sym, Addresses(trace));
    }
  }

  // A stack that the reader interns is located at the symbols of its frames
  lemma DeliveredIsShown(sym: nat -> seq<Frame>, find: nat -> Option<seq<nat>>, traces: set<nat>,
                         located: map<nat, seq<Frame>>, id: nat)
    requires Named(sym, find, traces, located) && id in traces
    ensures find(id).Some? ==> ShownAt(sym, id, find(id).value, PathOf(located, id))
    ensures find(id).None? ==> PathOf(located, id) == [UNKNOWN_FRAME]
  {
    if find(id).Some? {
      FoundIsShown(sym, find, id);
    }
  }

  // ----- shared callers

  lemma {:induction false} CallersFirst(sym: nat -> seq<Frame>, inner: seq<nat>, callers: seq<nat>, path: seq<Frame>)
    requires Spelled(sym, inner + callers, path)
    ensures Breadth(sym, callers) <= |path| && Spelled(sym, callers, path[..Breadth(sym, callers)])
  {
    if inner == [] {
      assert inner + callers == callers && path[..|path|] == path;
    } else {
      var trace := inner + callers;
      assert trace[1..] == inner[1..] + callers;
      assert StandsAt(sym, trace, path, 0);
      var outer := path[..Breadth(sym, trace[1..])];
      SpelledOuter(sym, trace, path, outer);
      CallersFirst(sym, inner[1..], callers, outer);
      assert outer[..Breadth(sym, callers)] == path[..Breadth(sym, callers)];
    }
  }

  // Two traces with the same callers are shown under one path: that of the callers. Whatever is summed
  // there sums both.
  lemma CallersShare(sym: nat -> seq<Frame>, find: nat -> Option<seq<nat>>, a: nat, b: nat, innerA: seq<nat>,
                     innerB: seq<nat>, callers: seq<nat>) returns (path: seq<Frame>)
    requires find(a) == Some(innerA + callers) && find(b) == Some(innerB + callers)
    requires a < 0x7FFF_FFFF <==> b < 0x7FFF_FFFF
    ensures ShownAt(sym, a, callers, path)
    ensures Falling(sym, find, Under(path))(a) && Falling(sym, find, Under(path))(b)
  {
    var p, q := NamedPath(sym, find, a), NamedPath(sym, find, b);
    var n := Breadth(sym, callers);
    FoundIsShown(sym, find, a);
    FoundIsShown(sym, find, b);
    if a < 0x7FFF_FFFF {
      CallersFirst(sym, innerA, callers, p);
      CallersFirst(sym, innerB, callers, q);
      path := p[..n];
      SpelledOnce(sym, callers, p[..n], q[..n]);
    } else {
      CallersFirst(sym, innerA, callers, p[1..]);
      CallersFirst(sym, innerB, callers, q[1..]);
      SpelledOnce(sym, callers, p[1..][..n], q[1..][..n]);
      path := [MEMHAWK_FRAME] + p[1..][..n];
      assert path[1..] == p[1..][..n];
      assert path == p[..n + 1] == q[..n + 1];
    }
  }

  lemma {:induction false} NodeAbove<T(!new)>(nodes: seq<GraphNode<T>>, edges: map<Edge, nat>, i: nat,
                                              path: seq<Frame>) returns (j: nat)
    requires Shaped(nodes, edges) && i < |nodes| && path <= Trace(nodes, edges, i)
    ensures j < |nodes| && Trace(nodes, edges, j) == path
    decreases i
  {
    if path == Trace(nodes, edges, i) {
      j := i;
    } else {
      assert NodeOk(nodes, edges, i);
      j := NodeAbove(nodes, edges, nodes[i].parent, path);
    }
  }

  // With nothing left to flush, the callers' node exists and its total has the values of both traces
  lemma CallersNode<T(!new)>(writer: ProtoWriter<T>, reader: Processor<T>, find: nat -> Option<seq<nat>>, a: nat,
                             b: nat, innerA: seq<nat>, innerB: seq<nat>, callers: seq<nat>)
    returns (i: nat, keep: nat -> bool)
    requires Linked(writer, reader) && writer.changed == {}
    requires Named(reader.sym, find, writer.written, reader.located) && a in writer.written && a in reader.located
    requires find(a) == Some(innerA + callers) && find(b) == Some(innerB + callers)
    requires a < 0x7FFF_FFFF <==> b < 0x7FFF_FFFF
    ensures i < |reader.graph.nodes|
    ensures ShownAt(reader.sym, a, callers, Trace(reader.graph.nodes, reader.graph.edges, i))
    ensures reader.graph.nodes[i].agg.total == Total(writer.g, Only(writer.local, keep), TRACE_IDS)
    ensures keep(a) && keep(b)
  {
    var path := CallersShare(reader.sym, find, a, b, innerA, innerB, callers);
    assert PathOf(reader.located, a) == NamedPath(reader.sym, find, a);
    i := NodeAbove(reader.graph.nodes, reader.graph.edges, reader.leafOf[a], path);
    keep := Falling(reader.sym, find, Under(path));
    NodeIsSent(writer, reader, find, i);
  }

  // ----- ids to addresses

  // The reader drops the ids it does not know and turns the others round
  lemma {:induction false} ResolvedSplits(table: map<nat, nat>, a: seq<nat>, b: seq<nat>)
    ensures Resolved(table, a + b) == Resolved(table, b) + Resolved(table, a)
    ensures |a| == 1 ==> Resolved(table, a) == if a[0] in table then [table[a[0]]] else []
  {
    if a == [] {
      assert a + b == b;
    } else {
      assert (a + b)[1..] == a[1..] + b;
      ResolvedSplits(table, a[1..], b);
      if |a| == 1 {
        assert a[1..] == [];
      }
    }
  }
}
