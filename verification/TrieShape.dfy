/**
 The static structure of the flamegraph trie: a node arena, a path arena, and
 the ghost names that say which path each node stands for.

 A node stores only its span of the path arena, its outgoing edges and two
 counters. Every node has a name, the concatenation of the spans from the
 root down to it, and every non-root node has a parent. The lemmas here show
 that names are unique and that walking down by keys finds every named
 extension, which is what makes the compressed form a faithful index.
 */
module TrieShape {
  type Key = nat
  type Path = seq<Key>

  datatype Node = Node(begin: nat, end: nat, edges: map<Key, nat>, total: int, value: int)

  datatype Shape = Shape(nodes: seq<Node>, paths: seq<Key>, names: seq<Path>, parent: seq<nat>)

  ghost predicate Sized(s: Shape) {
    0 < |s.nodes| == |s.names| == |s.parent|
  }

  // p is a proper prefix of q
  predicate Proper(p: Path, q: Path) {
    |p| < |q| && p <= q
  }

  // The parent of i has a shorter name that i's name extends, and points to i
  // under the first key it lacks
  ghost predicate Hangs(s: Shape, i: nat)
    requires Sized(s) && i < |s.nodes|
  {
    var p := s.parent[i];
    && p < |s.nodes|
    && Proper(s.names[p], s.names[i])
    && var k := s.names[i][|s.names[p]|];
    && k in s.nodes[p].edges
    && s.nodes[p].edges[k] == i
  }

  ghost predicate EdgeOk(s: Shape, i: nat, k: Key)
    requires Sized(s) && i < |s.nodes| && k in s.nodes[i].edges
  {
    var c := s.nodes[i].edges[k];
    && 0 < c < |s.nodes|
    && s.parent[c] == i
    && Proper(s.names[i], s.names[c])
    && s.names[c][|s.names[i]|] == k
  }

  ghost predicate Tree(s: Shape) {
    && Sized(s)
    && s.names[0] == []
    && (forall i :: 0 < i < |s.nodes| ==> Hangs(s, i))
    && (forall i, k :: 0 <= i < |s.nodes| && k in s.nodes[i].edges ==> EdgeOk(s, i, k))
  }

  // The part of a name that comes before the node's own span
  ghost function Stem(s: Shape, i: nat): (p: Path)
    requires Tree(s) && i < |s.nodes|
    ensures p <= s.names[i]
  {
    if i == 0 then [] else assert Hangs(s, i); s.names[s.parent[i]]
  }

  // Spans lie inside the path arena and spell out the names
  ghost predicate SpanOk(s: Shape, i: nat)
    requires Tree(s) && i < |s.nodes|
  {
    var n := s.nodes[i];
    && n.begin <= n.end <= |s.paths|
    && s.names[i] == Stem(s, i) + s.paths[n.begin..n.end]
  }

  ghost predicate Spans(s: Shape)
    requires Tree(s)
  {
    forall i :: 0 <= i < |s.nodes| ==> SpanOk(s, i)
  }

  // The span of every non-root node is nonempty and starts with the key of the edge that leads to it
  lemma SpanOfNode(s: Shape, i: nat)
    requires Tree(s) && Spans(s) && i < |s.nodes|
    ensures SpanOk(s, i)
    ensures i == 0 ==> s.nodes[0].begin == s.nodes[0].end
    ensures i > 0 ==> s.nodes[i].begin < s.nodes[i].end
    ensures i > 0 ==> Hangs(s, i) && s.paths[s.nodes[i].begin] == s.names[i][|Stem(s, i)|]
  {
    assert SpanOk(s, i);
    if i > 0 {
      assert Hangs(s, i);
    }
  }

  // ----- walking down

  lemma OnlyRootIsEmpty(s: Shape, i: nat)
    requires Tree(s) && i < |s.nodes|
    ensures s.names[i] == [] <==> i == 0
  {
    if i > 0 {
      assert Hangs(s, i);
    }
  }

  // Nodes of equal name have parents of equally long names
  lemma {:induction false} ParentsLevel(s: Shape, a: nat, b: nat)
    requires Tree(s) && 0 < a < |s.nodes| && 0 < b < |s.nodes|
    requires s.names[a] == s.names[b]
    requires Hangs(s, a) && Hangs(s, b)
    ensures |s.names[s.parent[a]]| >= |s.names[s.parent[b]]|
    decreases |s.names[a]|, 0
  {
    var p, q := s.parent[a], s.parent[b];
    if |s.names[p]| < |s.names[q]| {
      assert Proper(s.names[p], s.names[q]);
      assert s.names[q][|s.names[p]|] == s.names[a][|s.names[p]|];
      Descend(s, p, q);
      assert false;
    }
  }

  // No two nodes have the same name
  lemma {:induction false} Unique(s: Shape, a: nat, b: nat)
    requires Tree(s) && a < |s.nodes| && b < |s.nodes|
    requires s.names[a] == s.names[b]
    ensures a == b
    decreases |s.names[a]|, 1
  {
    OnlyRootIsEmpty(s, a);
    OnlyRootIsEmpty(s, b);
    if a > 0 && b > 0 {
      assert Hangs(s, a) && Hangs(s, b);
      ParentsLevel(s, a, b);
      ParentsLevel(s, b, a);
      assert s.names[s.parent[a]] == s.names[s.parent[b]];
      Unique(s, s.parent[a], s.parent[b]);
    }
  }

  // If the name of j properly extends the name of a, then a has an edge towards j
  lemma {:induction false} Descend(s: Shape, a: nat, j: nat)
    requires Tree(s) && a < |s.nodes| && j < |s.nodes|
    requires Proper(s.names[a], s.names[j])
    ensures var k := s.names[j][|s.names[a]|];
      k in s.nodes[a].edges && EdgeOk(s, a, k) && s.names[s.nodes[a].edges[k]] <= s.names[j]
    decreases |s.names[j]|, 0
  {
    assert Hangs(s, j);
    var p := s.parent[j];
    var na, np, nj := s.names[a], s.names[p], s.names[j];
    if |na| <= |np| {
      if |na| == |np| {
        assert na == np;
        Unique(s, a, p);
        assert EdgeOk(s, a, nj[|na|]);
      } else {
        assert Proper(na, np);
        Descend(s, a, p);
        assert np[|na|] == nj[|na|];
      }
    } else {
      assert Proper(np, na) && na[|np|] == nj[|np|];
      Descend(s, p, a);
      assert false;
    }
  }

  // A named path that enters the span of i contains all of it
  lemma {:induction false} ThroughSpan(s: Shape, i: nat, q: Path, j: nat)
    requires Tree(s) && 0 < i < |s.nodes| && j < |s.nodes|
    requires Proper(Stem(s, i), q) && q <= s.names[i] && q <= s.names[j]
    ensures s.names[i] <= s.names[j]
  {
    assert Hangs(s, i);
    var p := s.parent[i];
    Descend(s, p, j);
    assert s.names[j][|s.names[p]|] == q[|s.names[p]|] == s.names[i][|s.names[p]|];
  }
}
