/**
 The plain specification of the flamegraph trie: the log of appended
 (path, value) pairs and the sums it defines, together with the book-keeping
 relation between a trie shape and a log.
 */
module TrieLog {
  import opened TrieShape

  datatype Entry = Entry(path: Path, value: int)

  // Sum of the values appended at p or anywhere below it
  function SumUnder(log: seq<Entry>, p: Path): (r: int) {
    if log == [] then 0
    else
      var e := log[|log| - 1];
      SumUnder(log[..|log| - 1], p) + if p <= e.path then e.value else 0
  }

  // Sum of the values appended at exactly p
  function SumAt(log: seq<Entry>, p: Path): (r: int) {
    if log == [] then 0
    else
      var e := log[|log| - 1];
      SumAt(log[..|log| - 1], p) + if p == e.path then e.value else 0
  }

  ghost predicate InLog(log: seq<Entry>, p: Path) {
    exists e :: e in log && e.path == p
  }

  lemma LogGrows(log: seq<Entry>, e: Entry, p: Path)
    ensures SumUnder(log + [e], p) == SumUnder(log, p) + (if p <= e.path then e.value else 0)
    ensures SumAt(log + [e], p) == SumAt(log, p) + (if p == e.path then e.value else 0)
    ensures InLog(log + [e], p) <==> InLog(log, p) || p == e.path
  {
    assert (log + [e])[..|log|] == log;
    assert e in log + [e];
  }

  lemma {:induction false} SameUnder(log: seq<Entry>, p: Path, q: Path)
    requires forall e :: e in log ==> (p <= e.path <==> q <= e.path)
    ensures SumUnder(log, p) == SumUnder(log, q)
  {
    if log != [] {
      SameUnder(log[..|log| - 1], p, q);
      assert log[|log| - 1] in log;
    }
  }

  lemma {:induction false} NothingAt(log: seq<Entry>, p: Path)
    requires !InLog(log, p)
    ensures SumAt(log, p) == 0
  {
    if log != [] {
      NothingAt(log[..|log| - 1], p);
      assert log[|log| - 1] in log;
    }
  }

  lemma {:induction false} NothingUnder(log: seq<Entry>, p: Path)
    requires forall e :: e in log ==> !(p <= e.path)
    ensures SumUnder(log, p) == 0
  {
    if log != [] {
      NothingUnder(log[..|log| - 1], p);
      assert log[|log| - 1] in log;
    }
  }

  // ----- a shape that keeps the books of a log

  // The node's counters are the sums of the log; `extra` has already been
  // added to the totals of the nodes above `root`
  ghost predicate Passed(s: Shape, root: nat, i: nat)
    requires Tree(s) && root < |s.nodes| && i < |s.nodes|
  {
    root != 0 && s.names[i] <= Stem(s, root)
  }

  ghost predicate CountOk(s: Shape, log: seq<Entry>, extra: int, root: nat, i: nat)
    requires Tree(s) && root < |s.nodes| && i < |s.nodes|
  {
    && s.nodes[i].value == SumAt(log, s.names[i])
    && s.nodes[i].total == SumUnder(log, s.names[i]) + if Passed(s, root, i) then extra else 0
  }

  ghost predicate Counts(s: Shape, log: seq<Entry>, extra: int, root: nat)
    requires Tree(s) && root < |s.nodes|
  {
    forall i :: 0 <= i < |s.nodes| ==> CountOk(s, log, extra, root, i)
  }

  ghost predicate Named(s: Shape, p: Path) {
    exists i :: 0 <= i < |s.names| && s.names[i] == p
  }

  ghost predicate Covered(s: Shape, log: seq<Entry>) {
    forall e :: e in log ==> Named(s, e.path)
  }

  // Node i is needed: it was appended, or it branches, or it is the path being appended
  ghost predicate Needed(s: Shape, log: seq<Entry>, path: Path, i: nat)
    requires Sized(s) && i < |s.nodes|
  {
    InLog(log, s.names[i]) || |s.nodes[i].edges| >= 2 || s.names[i] == path
  }

  ghost predicate Tight(s: Shape, log: seq<Entry>, path: Path, root: nat)
    requires Sized(s)
  {
    forall i :: 0 < i < |s.nodes| && i != root ==> Needed(s, log, path, i)
  }

  ghost predicate Books(s: Shape, log: seq<Entry>, extra: int, path: Path, root: nat) {
    && Tree(s) && Spans(s) && root < |s.nodes|
    && Counts(s, log, extra, root)
    && Covered(s, log)
    && Tight(s, log, path, root)
  }

  // ----- splitting a node

  ghost function SplitShape(s: Shape, root: nat, m: nat): (r: Shape)
    requires Tree(s) && Spans(s) && root < |s.nodes|
    requires SpanOk(s, root) && m < s.nodes[root].end - s.nodes[root].begin
  {
    var n := s.nodes[root];
    var newId := |s.nodes|;
    Shape(
      s.nodes[root := Node(n.begin, n.begin + m, map[s.paths[n.begin + m] := newId], n.total, 0)]
        + [Node(n.begin + m, n.end, n.edges, n.total, n.value)],
      s.paths,
      s.names[root := Stem(s, root) + s.paths[n.begin..n.begin + m]] + [s.names[root]],
      seq(newId, i requires 0 <= i < newId => if i > 0 && s.parent[i] == root then newId else s.parent[i]) + [root])
  }

  lemma SplitNames(s: Shape, root: nat, m: nat)
    requires Tree(s) && Spans(s) && 0 < root < |s.nodes|
    requires SpanOk(s, root) && 0 < m < s.nodes[root].end - s.nodes[root].begin
    ensures var t := SplitShape(s, root, m);
      var q := s.names[root][..|Stem(s, root)| + m];
      && t.names == s.names[root := q] + [s.names[root]]
      && Proper(Stem(s, root), q) && Proper(q, s.names[root])
      && s.names[root][|q|] == s.paths[s.nodes[root].begin + m]
  {
    var t := SplitShape(s, root, m);
    var n := s.nodes[root];
    assert Stem(s, root) + s.paths[n.begin..n.begin + m] == s.names[root][..|Stem(s, root)| + m];
  }

  lemma SplitTree(s: Shape, root: nat, m: nat)
    requires Tree(s) && Spans(s) && 0 < root < |s.nodes|
    requires SpanOk(s, root) && 0 < m < s.nodes[root].end - s.nodes[root].begin
    ensures Tree(SplitShape(s, root, m))
    ensures Stem(SplitShape(s, root, m), root) == Stem(s, root)
  {
    var t := SplitShape(s, root, m);
    var newId := |s.nodes|;
    SplitNames(s, root, m);
    assert Hangs(s, root);
    forall i | 0 < i < |t.nodes| ensures Hangs(t, i) {
      if i < newId {
        assert Hangs(s, i);
      }
    }
    forall i, k | 0 <= i < |t.nodes| && k in t.nodes[i].edges ensures EdgeOk(t, i, k) {
      if i == newId {
        assert EdgeOk(s, root, k);
      } else if i != root {
        assert EdgeOk(s, i, k);
      }
    }
  }

  lemma SplitSpans(s: Shape, root: nat, m: nat)
    requires Tree(s) && Spans(s) && 0 < root < |s.nodes|
    requires SpanOk(s, root) && 0 < m < s.nodes[root].end - s.nodes[root].begin
    requires Tree(SplitShape(s, root, m))
    ensures Spans(SplitShape(s, root, m))
  {
    var t := SplitShape(s, root, m);
    var newId := |s.nodes|;
    var n := s.nodes[root];
    forall i | 0 <= i < |t.nodes| ensures SpanOk(t, i) {
      if i == newId {
        assert s.paths[n.begin..n.end] == s.paths[n.begin..n.begin + m] + s.paths[n.begin + m..n.end];
      } else {
        assert SpanOk(s, i);
        assert i > 0 ==> Hangs(s, i);
        assert Stem(t, i) == Stem(s, i);
      }
    }
  }

  // Every logged path that enters the span of a node runs through all of it
  lemma LoggedThroughSpan(s: Shape, log: seq<Entry>, i: nat, q: Path)
    requires Tree(s) && Covered(s, log) && 0 < i < |s.nodes|
    requires Proper(Stem(s, i), q) && q <= s.names[i]
    ensures forall e :: e in log ==> (q <= e.path <==> s.names[i] <= e.path)
    ensures SumUnder(log, q) == SumUnder(log, s.names[i])
    ensures q != s.names[i] ==> !InLog(log, q)
  {
    forall e | e in log ensures q <= e.path <==> s.names[i] <= e.path {
      assert Named(s, e.path);
      var j :| 0 <= j < |s.names| && s.names[j] == e.path;
      if q <= e.path {
        ThroughSpan(s, i, q, j);
      }
    }
    SameUnder(log, q, s.names[i]);
  }

  lemma SplitBooks(s: Shape, log: seq<Entry>, extra: int, path: Path, root: nat, m: nat)
    requires Books(s, log, extra, path, root) && 0 < root
    requires SpanOk(s, root) && 0 < m < s.nodes[root].end - s.nodes[root].begin
    requires Needed(s, log, path, root) && s.names[root] != path
    ensures Books(SplitShape(s, root, m), log, extra, path, root)
  {
    var t := SplitShape(s, root, m);
    var newId := |s.nodes|;
    SplitTree(s, root, m);
    SplitSpans(s, root, m);
    SplitNames(s, root, m);
    LoggedThroughSpan(s, log, root, t.names[root]);
    NothingAt(log, t.names[root]);
    forall i | 0 <= i < |t.nodes| ensures CountOk(t, log, extra, root, i) {
      if i < newId {
        assert CountOk(s, log, extra, root, i);
      } else {
        assert CountOk(s, log, extra, root, root);
      }
    }
    forall e | e in log ensures Named(t, e.path) {
      assert Named(s, e.path);
      var j :| 0 <= j < |s.names| && s.names[j] == e.path;
      assert t.names[if j == root then newId else j] == e.path;
    }
    forall i | 0 < i < |t.nodes| && i != root ensures Needed(t, log, path, i) {
      assert Needed(s, log, path, if i < newId then i else root);
    }
  }

  // ----- adding a leaf

  ghost function AddShape(s: Shape, root: nat, rest: Path): (r: Shape)
    requires Sized(s) && root < |s.nodes| && rest != []
  {
    var n := s.nodes[root];
    Shape(
      s.nodes[root := n.(edges := n.edges[rest[0] := |s.nodes|])]
        + [Node(|s.paths|, |s.paths| + |rest|, map[], 0, 0)],
      s.paths + rest,
      s.names + [s.names[root] + rest],
      s.parent + [root])
  }

  lemma AddTree(s: Shape, root: nat, rest: Path)
    requires Tree(s) && Spans(s) && root < |s.nodes|
    requires rest != [] && rest[0] !in s.nodes[root].edges
    ensures var t := AddShape(s, root, rest); Tree(t) && Spans(t) && Stem(t, root) == Stem(s, root)
  {
    var t := AddShape(s, root, rest);
    var newId := |s.nodes|;
    forall i | 0 < i < |t.nodes| ensures Hangs(t, i) {
      if i < newId {
        assert Hangs(s, i);
      }
    }
    forall i, k | 0 <= i < |t.nodes| && k in t.nodes[i].edges ensures EdgeOk(t, i, k) {
      if i < newId && !(i == root && k == rest[0]) {
        assert EdgeOk(s, i, k);
      }
    }
    assert Tree(t);
    forall i | 0 <= i < |t.nodes| ensures SpanOk(t, i) {
      if i < newId {
        assert SpanOk(s, i);
        assert i > 0 ==> Hangs(s, i);
        assert Stem(t, i) == Stem(s, i);
        assert t.paths[..|s.paths|] == s.paths;
        assert t.paths[s.nodes[i].begin..s.nodes[i].end] == s.paths[s.nodes[i].begin..s.nodes[i].end];
      } else {
        assert Stem(t, i) == s.names[root];
        assert t.paths[|s.paths|..] == rest;
      }
    }
    if root > 0 {
      assert Hangs(s, root);
    }
  }

  // A path that leaves the trie at a missing edge was never appended, nor was anything below it
  lemma MissingEdge(s: Shape, log: seq<Entry>, root: nat, rest: Path)
    requires Tree(s) && Covered(s, log) && root < |s.nodes|
    requires rest != [] && rest[0] !in s.nodes[root].edges
    ensures !Named(s, s.names[root] + rest)
    ensures SumUnder(log, s.names[root] + rest) == 0 && SumAt(log, s.names[root] + rest) == 0
    ensures !InLog(log, s.names[root] + rest)
  {
    var path := s.names[root] + rest;
    assert path[|s.names[root]|] == rest[0];
    forall j | 0 <= j < |s.names| ensures !(path <= s.names[j]) {
      if path <= s.names[j] {
        assert Proper(s.names[root], s.names[j]) && s.names[j][|s.names[root]|] == rest[0];
        Descend(s, root, j);
        assert false;
      }
    }
    forall e | e in log ensures !(path <= e.path) {
      assert Named(s, e.path);
    }
    NothingUnder(log, path);
    assert !InLog(log, path);
    NothingAt(log, path);
  }

  lemma AddBooks(s: Shape, log: seq<Entry>, extra: int, path: Path, root: nat, rest: Path)
    requires Books(s, log, extra, path, root)
    requires rest != [] && rest[0] !in s.nodes[root].edges && path == s.names[root] + rest
    ensures Books(AddShape(s, root, rest), log, extra, path, root)
  {
    var t := AddShape(s, root, rest);
    var newId := |s.nodes|;
    AddTree(s, root, rest);
    MissingEdge(s, log, root, rest);
    forall i | 0 <= i < |t.nodes| ensures CountOk(t, log, extra, root, i) {
      if i < newId {
        assert CountOk(s, log, extra, root, i);
      }
    }
    forall e | e in log ensures Named(t, e.path) {
      assert Named(s, e.path);
      var j :| 0 <= j < |s.names| && s.names[j] == e.path;
      assert t.names[j] == e.path;
    }
    forall i | 0 < i < |t.nodes| && i != root ensures Needed(t, log, path, i) {
      if i < newId {
        assert Needed(s, log, path, i);
      }
    }
  }

  // ----- counting

  ghost function Count(s: Shape, i: nat, toTotal: int, toValue: int): (r: Shape)
    requires Sized(s) && i < |s.nodes|
  {
    var n := s.nodes[i];
    s.(nodes := s.nodes[i := n.(total := n.total + toTotal, value := n.value + toValue)])
  }

  lemma CountTree(s: Shape, i: nat, a: int, b: int)
    requires Tree(s) && Spans(s) && i < |s.nodes|
    ensures var t := Count(s, i, a, b);
      Tree(t) && Spans(t) && forall j :: 0 <= j < |s.nodes| ==> Stem(t, j) == Stem(s, j)
  {
    var t := Count(s, i, a, b);
    forall j | 0 < j < |t.nodes| ensures Hangs(t, j) {
      assert Hangs(s, j);
    }
    forall j, k | 0 <= j < |t.nodes| && k in t.nodes[j].edges ensures EdgeOk(t, j, k) {
      assert EdgeOk(s, j, k);
    }
    assert Tree(t);
    forall j | 0 <= j < |t.nodes| ensures SpanOk(t, j) {
      assert SpanOk(s, j);
    }
  }

  // Between a node's stem and its name there is no other node
  lemma OnlyNodeInSpan(s: Shape, root: nat, i: nat)
    requires Tree(s) && root < |s.nodes| && i < |s.nodes|
    ensures s.names[i] <= s.names[root] <==> i == root || Passed(s, root, i)
    ensures !Passed(s, root, root)
  {
    OnlyRootIsEmpty(s, i);
    if root > 0 {
      assert Hangs(s, root);
    }
    if root > 0 && s.names[i] <= s.names[root] && !Passed(s, root, i) {
      assert Proper(Stem(s, root), s.names[i]);
      ThroughSpan(s, root, s.names[i], i);
      Unique(s, i, root);
    }
  }

  // Moving from root to its child c, after adding the value to root's total
  lemma AdvanceBooks(s: Shape, log: seq<Entry>, extra: int, path: Path, root: nat, c: nat)
    requires Books(s, log, extra, path, root)
    requires 0 < c < |s.nodes| && s.parent[c] == root
    requires root > 0 ==> Needed(s, log, path, root)
    ensures Books(Count(s, root, extra, 0), log, extra, path, c)
  {
    var t := Count(s, root, extra, 0);
    CountTree(s, root, extra, 0);
    forall i | 0 <= i < |t.nodes| ensures CountOk(t, log, extra, c, i) {
      assert CountOk(s, log, extra, root, i);
      OnlyNodeInSpan(s, root, i);
      assert Stem(t, c) == s.names[root];
    }
    forall e | e in log ensures Named(t, e.path) {
      assert Named(s, e.path);
    }
    forall i | 0 < i < |t.nodes| && i != c ensures Needed(t, log, path, i) {
      assert Needed(s, log, path, i);
    }
  }

  // Accounting the value at the node named by the whole path
  lemma FinishBooks(s: Shape, log: seq<Entry>, extra: int, path: Path, root: nat)
    requires Books(s, log, extra, path, root)
    requires s.names[root] == path
    ensures Books(Count(s, root, extra, extra), log + [Entry(path, extra)], 0, [], 0)
  {
    var t := Count(s, root, extra, extra);
    var more := log + [Entry(path, extra)];
    CountTree(s, root, extra, extra);
    forall i | 0 <= i < |t.nodes| ensures CountOk(t, more, 0, 0, i) {
      assert CountOk(s, log, extra, root, i);
      OnlyNodeInSpan(s, root, i);
      LogGrows(log, Entry(path, extra), s.names[i]);
      if s.names[i] == path {
        Unique(s, i, root);
      }
    }
    forall e | e in more ensures Named(t, e.path) {
      if e in log {
        assert Named(s, e.path);
        var j :| 0 <= j < |s.names| && s.names[j] == e.path;
        assert t.names[j] == e.path;
      } else {
        assert t.names[root] == e.path;
      }
    }
    forall i | 0 < i < |t.nodes| && i != 0 ensures Needed(t, more, [], i) {
      LogGrows(log, Entry(path, extra), s.names[i]);
      if i != root {
        assert Needed(s, log, path, i);
      }
    }
  }
}
