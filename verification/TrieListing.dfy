/**
 The listing that GetTop returns: rows of depth, key, total and value, from
 which the selected prefixes can be decoded again.
 */
module TrieListing {
  import opened TrieShape
  import opened TrieLog
  import opened TrieCanon
  import opened TrieTop

  // ----- decoding the depth and key columns

  // The path that row j stands for: cut the path of the row before it to the
  // depth of the parent and add the key
  function PathAt(rows: seq<RetrievedNode>, j: nat): (p: Path)
    requires j < |rows|
  {
    if j == 0 then []
    else
      var prev, d := PathAt(rows, j - 1), rows[j].depth;
      if 1 <= d <= |prev| + 1 then prev[..d - 1] + [rows[j].key] else []
  }

  // ----- properties of a listing of paths

  ghost predicate RowOk(log: seq<Entry>, row: RetrievedNode, p: Path) {
    && row.depth == |p|
    && row.total == SumUnder(log, p)
    && row.key == (if p == [] then 0 else p[|p| - 1])
    && row.value == if p == [] then 0 else SumAt(log, p)
  }

  ghost predicate Rows(log: seq<Entry>, rows: seq<RetrievedNode>, ps: seq<Path>) {
    |rows| == |ps| && forall j :: 0 <= j < |rows| ==> RowOk(log, rows[j], ps[j])
  }

  ghost predicate Preorder(ps: seq<Path>) {
    forall j :: 0 < j < |ps| ==> ps[j] != [] && Up(ps[j]) <= ps[j - 1]
  }

  ghost predicate NoDup(ps: seq<Path>) {
    forall a, b :: 0 <= a < b < |ps| ==> ps[a] != ps[b]
  }

  // Siblings are ordered by decreasing weight, and by decreasing key among equals
  ghost predicate Heavier(log: seq<Entry>, p: Path, q: Path)
    requires p != [] && q != []
  {
    || SumUnder(log, p) > SumUnder(log, q)
    || (SumUnder(log, p) == SumUnder(log, q) && p[|p| - 1] > q[|q| - 1])
  }

  ghost predicate Siblings(log: seq<Entry>, ps: seq<Path>) {
    forall a, b :: 0 <= a < b < |ps| && ps[a] != [] && ps[b] != [] && Up(ps[a]) == Up(ps[b]) ==>
      Heavier(log, ps[a], ps[b])
  }

  ghost predicate Listing(log: seq<Entry>, rows: seq<RetrievedNode>, ps: seq<Path>) {
    Rows(log, rows, ps) && Preorder(ps) && NoDup(ps) && Siblings(log, ps)
  }

  lemma NextPath(prev: Path, p: Path, d: int, k: Key)
    requires p != [] && Up(p) <= prev && d == |p| && k == p[|p| - 1]
    ensures 1 <= d <= |prev| + 1 && prev[..d - 1] + [k] == p
  {
    assert prev[..d - 1] == Up(p);
  }

  lemma {:induction false} DecodeListing(log: seq<Entry>, rows: seq<RetrievedNode>, ps: seq<Path>, j: nat)
    requires Listing(log, rows, ps) && j < |rows| && ps[0] == []
    ensures PathAt(rows, j) == ps[j]
  {
    if j > 0 {
      DecodeListing(log, rows, ps, j - 1);
      assert RowOk(log, rows[j], ps[j]);
      NextPath(ps[j - 1], ps[j], rows[j].depth, rows[j].key);
    }
  }

  lemma UpKeeps(base: Path, q: Path)
    ensures base <= q && |q| > |base| ==> base <= Up(q)
  {
  }

  // A path below base + [k] with a sibling elsewhere is base + [k] itself
  lemma SiblingElsewhere(base: Path, p: Path, q: Path)
    requires p != [] && q != [] && base <= q && !(base <= p) && Up(p) == Up(q)
    ensures q == base
  {
    UpKeeps(base, q);
  }

  // Appending the listing of a child's branch to the listing so far
  lemma JoinListings(log: seq<Entry>, rows: seq<RetrievedNode>, ps: seq<Path>,
                     more: seq<RetrievedNode>, cs: seq<Path>, base: Path, k: Key)
    requires Listing(log, rows, ps) && Listing(log, more, cs)
    requires ps != [] && base <= ps[|ps| - 1]
    requires cs != [] ==> cs[0] == base + [k]
    requires forall q :: q in cs ==> base + [k] <= q
    requires forall q :: q in ps ==> !(base + [k] <= q)
    requires forall q :: q in ps && q != [] && Up(q) == base ==> Heavier(log, q, base + [k])
    ensures Listing(log, rows + more, ps + cs)
  {
    var out := ps + cs;
    assert Up(base + [k]) == base;
    forall j | 0 < j < |out| ensures out[j] != [] && Up(out[j]) <= out[j - 1] {
      if j == |ps| {
        assert out[j] == cs[0];
      } else if j > |ps| {
        assert out[j] == cs[j - |ps|] && out[j - 1] == cs[j - 1 - |ps|];
      }
    }
    forall a, b | 0 <= a < b < |out| ensures out[a] != out[b] {
      if a < |ps| <= b {
        assert out[a] in ps && out[b] in cs;
      }
    }
    forall a, b | 0 <= a < b < |out| && out[a] != [] && out[b] != [] && Up(out[a]) == Up(out[b])
      ensures Heavier(log, out[a], out[b])
    {
      if a < |ps| <= b {
        assert out[a] in ps && out[b] in cs;
        SiblingElsewhere(base + [k], out[a], out[b]);
      } else if a >= |ps| {
        assert out[a] == cs[a - |ps|] && out[b] == cs[b - |ps|];
      }
    }
  }

  // ----- what is listed for the branch of a node

  // The first prefix inside the span of i
  ghost function Hook(s: Shape, i: nat): (r: Path)
    requires Tree(s) && i < |s.nodes|
    ensures r <= s.names[i]
  {
    if i == 0 then [] else assert Hangs(s, i); s.names[i][..|Stem(s, i)| + 1]
  }

  ghost predicate InBranch(s: Shape, i: nat, keys: set<Key>, q: Path)
    requires Tree(s) && i < |s.nodes|
  {
    Hook(s, i) <= q && forall k :: k in keys ==> !(s.names[i] + [k] <= q)
  }

  // The listing so far has exactly the selected prefixes in the branch of i,
  // except those under the children that are still to come
  ghost predicate Lists(s: Shape, sel: set<NodeOnPath>, i: nat, keys: set<Key>, ps: seq<Path>)
    requires Tree(s) && i < |s.nodes|
  {
    forall q :: q in ps <==> Picked(s, sel, q) && InBranch(s, i, keys, q)
  }

  lemma HookOfChild(s: Shape, i: nat, k: Key)
    requires Tree(s) && i < |s.nodes| && k in s.nodes[i].edges
    ensures EdgeOk(s, i, k) && Hook(s, s.nodes[i].edges[k]) == s.names[i] + [k]
    ensures Stem(s, s.nodes[i].edges[k]) == s.names[i]
  {
    assert EdgeOk(s, i, k);
    var c := s.nodes[i].edges[k];
    assert Stem(s, c) == s.names[i];
    assert s.names[c][..|s.names[i]| + 1] == s.names[i] + [k];
  }

  // A selected prefix in the branch of i lies in the span of i or below one of its children
  lemma InSpanOrBelow(s: Shape, sel: set<NodeOnPath>, i: nat, q: Path)
    requires Tree(s) && i < |s.nodes| && Picked(s, sel, q) && Hook(s, i) <= q
    ensures |q| <= |s.names[i]| ==> q <= s.names[i]
    ensures |q| > |s.names[i]| ==> s.names[i] <= q && q[|s.names[i]|] in s.nodes[i].edges
  {
    var x :| x in sel && IsPos(s, x) && PosName(s, x) == q;
    var j := x.nodeId;
    if i > 0 {
      assert Hangs(s, i);
      ThroughSpan(s, i, Hook(s, i), j);
    }
    assert s.names[i] <= s.names[j];
    if |q| > |s.names[i]| {
      Descend(s, i, j);
    }
  }

  // ----- the rows of one span

  ghost predicate SpanRows(s: Shape, log: seq<Entry>, sel: set<NodeOnPath>, i: nat, n: nat,
                           rows: seq<RetrievedNode>, ps: seq<Path>)
    requires Tree(s) && 0 < i < |s.nodes| && Hangs(s, i) && n <= |s.names[i]| - |Stem(s, i)|
  {
    && |rows| == |ps| == n
    && (forall j :: 0 <= j < n ==> ps[j] == s.names[i][..|Stem(s, i)| + j + 1])
    && (forall j :: 0 <= j < n ==> RowOk(log, rows[j], ps[j]))
    && (forall x: NodeOnPath :: x.nodeId == i && 1 <= x.pathSize <= n ==> x in sel)
  }

  lemma SpanRow(s: Shape, log: seq<Entry>, i: nat, pos: nat, row: RetrievedNode)
    requires Kept(s, log) && 0 < i < |s.nodes| && SpanOk(s, i)
    requires s.nodes[i].begin + pos < s.nodes[i].end
    requires row == RetrievedNode(
      s.nodes[i].total,
      if s.nodes[i].begin + pos + 1 == s.nodes[i].end then s.nodes[i].value else 0,
      |Stem(s, i)| + pos + 1,
      s.paths[s.nodes[i].begin + pos])
    ensures RowOk(log, row, s.names[i][..|Stem(s, i)| + pos + 1])
  {
    assert Hangs(s, i);
    var x := NodeOnPath(i, pos + 1);
    PrefixOfPos(s, log, x);
    var q := s.names[i][..|Stem(s, i)| + pos + 1];
    assert PosName(s, x) == q;
    assert q[|q| - 1] == s.names[i][|Stem(s, i)| + pos] == s.paths[s.nodes[i].begin + pos];
  }

  lemma SpanStep(s: Shape, log: seq<Entry>, sel: set<NodeOnPath>, i: nat, pos: nat, rows: seq<RetrievedNode>,
                 ps: seq<Path>,
                 row: RetrievedNode, next: nat)
    requires Tree(s) && 0 < i < |s.nodes| && Hangs(s, i) && next == pos + 1 <= |s.names[i]| - |Stem(s, i)|
    requires SpanRows(s, log, sel, i, pos, rows, ps) && NodeOnPath(i, next) in sel
    requires RowOk(log, row, s.names[i][..|Stem(s, i)| + pos + 1])
    ensures SpanRows(s, log, sel, i, next, rows + [row], ps + [s.names[i][..|Stem(s, i)| + pos + 1]])
  {
  }

  lemma SpanListing(s: Shape, log: seq<Entry>, sel: set<NodeOnPath>, i: nat, n: nat,
                    rows: seq<RetrievedNode>, ps: seq<Path>)
    requires Tree(s) && 0 < i < |s.nodes| && Hangs(s, i) && n <= |s.names[i]| - |Stem(s, i)|
    requires SpanRows(s, log, sel, i, n, rows, ps)
    ensures Listing(log, rows, ps)
    ensures n > 0 ==> ps[0] == Hook(s, i)
  {
    var d := |Stem(s, i)|;
    forall j | 0 < j < |ps| ensures ps[j] != [] && Up(ps[j]) <= ps[j - 1] {
      assert Up(ps[j]) == s.names[i][..d + j];
    }
    forall a, b | 0 <= a < b < |ps| ensures |ps[a]| < |ps[b]| {
    }
    forall a, b | 0 <= a < b < |ps| && ps[a] != [] && ps[b] != [] ensures Up(ps[a]) != Up(ps[b]) {
      assert |Up(ps[a])| < |Up(ps[b])|;
    }
  }

  lemma SpanPicked(s: Shape, log: seq<Entry>, sel: set<NodeOnPath>, i: nat, n: nat,
                   rows: seq<RetrievedNode>, ps: seq<Path>, q: Path)
    requires Tree(s) && 0 < i < |s.nodes| && Hangs(s, i) && n <= |s.names[i]| - |Stem(s, i)|
    requires SpanRows(s, log, sel, i, n, rows, ps) && q in ps
    ensures Picked(s, sel, q) && Hook(s, i) <= q <= s.names[i]
  {
    var j :| 0 <= j < |ps| && ps[j] == q;
    var x := NodeOnPath(i, j + 1);
    assert IsPos(s, x) && PosName(s, x) == q;
  }

  // The span is cut off where the selection ends: nothing below is selected
  lemma SpanCut(s: Shape, log: seq<Entry>, sel: set<NodeOnPath>, i: nat, n: nat,
                rows: seq<RetrievedNode>, ps: seq<Path>)
    requires Tree(s) && Closed(s, sel) && 0 < i < |s.nodes| && Hangs(s, i) && n < |s.names[i]| - |Stem(s, i)|
    requires SpanRows(s, log, sel, i, n, rows, ps)
    requires NodeOnPath(i, n + 1) !in sel
    ensures Lists(s, sel, i, {}, ps)
  {
    var d := |Stem(s, i)|;
    forall q ensures q in ps <==> Picked(s, sel, q) && InBranch(s, i, {}, q) {
      if q in ps {
        SpanPicked(s, log, sel, i, n, rows, ps, q);
      }
      if Picked(s, sel, q) && Hook(s, i) <= q {
        InSpanOrBelow(s, sel, i, q);
        if |q| > d + n {
          var r := q[..d + n + 1];
          PickedPrefix(s, sel, q, r);
          InSpanOrBelow(s, sel, i, r);
          var x :| x in sel && IsPos(s, x) && PosName(s, x) == r;
          assert PosName(s, NodeOnPath(i, n + 1)) == r;
          PosUnique(s, x, NodeOnPath(i, n + 1));
          assert false;
        }
        assert q == ps[|q| - d - 1];
      }
    }
  }

  lemma NextKey(name: Path, q: Path)
    ensures name <= q && |q| > |name| ==> name + [q[|name|]] <= q
  {
  }

  // The whole span is listed; its children's branches are still to come
  lemma SpanWhole(s: Shape, log: seq<Entry>, sel: set<NodeOnPath>, i: nat, n: nat,
                  rows: seq<RetrievedNode>, ps: seq<Path>)
    requires Tree(s) && 0 < i < |s.nodes| && Hangs(s, i) && n == |s.names[i]| - |Stem(s, i)|
    requires SpanRows(s, log, sel, i, n, rows, ps)
    ensures Lists(s, sel, i, s.nodes[i].edges.Keys, ps)
    ensures ps != [] && ps[|ps| - 1] == s.names[i]
    ensures forall q :: q in ps ==> |q| <= |s.names[i]|
  {
    var d := |Stem(s, i)|;
    forall q ensures q in ps <==> Picked(s, sel, q) && InBranch(s, i, s.nodes[i].edges.Keys, q) {
      if q in ps {
        SpanPicked(s, log, sel, i, n, rows, ps, q);
      }
      if Picked(s, sel, q) && InBranch(s, i, s.nodes[i].edges.Keys, q) {
        InSpanOrBelow(s, sel, i, q);
        NextKey(s.names[i], q);
        assert q == ps[|q| - d - 1];
      }
    }
    assert ps[|ps| - 1] == s.names[i][..|s.names[i]|];
  }

  // The root row, with all of its children still to come
  lemma RootListed(s: Shape, log: seq<Entry>, sel: set<NodeOnPath>, rows: seq<RetrievedNode>)
    requires Kept(s, log) && (EndPos(s, 0) in sel || sel == {})
    requires rows == [RetrievedNode(s.nodes[0].total, 0, 0, 0)]
    ensures Listing(log, rows, [[]])
    ensures sel != {} ==> Lists(s, sel, 0, s.nodes[0].edges.Keys, [[]])
  {
    assert CountOk(s, log, 0, 0, 0);
    if sel != {} {
      forall q ensures q in [[]] <==> Picked(s, sel, q) && InBranch(s, 0, s.nodes[0].edges.Keys, q) {
        if q == [] {
          assert PosName(s, EndPos(s, 0)) == q;
        } else if Picked(s, sel, q) {
          InSpanOrBelow(s, sel, 0, q);
          assert s.names[0] + [q[0]] <= q;
        }
      }
    }
  }

  // One more child's branch has been listed
  lemma ChildListed(s: Shape, sel: set<NodeOnPath>, i: nat, keys: set<Key>, k: Key, ps: seq<Path>, cs: seq<Path>)
    requires Tree(s) && i < |s.nodes| && k in keys && keys <= s.nodes[i].edges.Keys
    requires Lists(s, sel, i, keys, ps)
    requires EdgeOk(s, i, k) && Lists(s, sel, s.nodes[i].edges[k], {}, cs)
    ensures Lists(s, sel, i, keys - {k}, ps + cs)
  {
    HookOfChild(s, i, k);
    forall q ensures q in ps + cs <==> Picked(s, sel, q) && InBranch(s, i, keys - {k}, q) {
      if s.names[i] + [k] <= q {
        assert forall l :: l in keys - {k} ==> !(s.names[i] + [l] <= q) by {
          assert q[|s.names[i]|] == k;
        }
        assert Hook(s, i) <= q;
      }
      assert q in ps + cs <==> q in ps || q in cs;
    }
  }

  // ----- the order of children

  predicate Outranks(nodes: seq<Node>, edges: map<Key, nat>, k: Key, l: Key)
    requires k in edges && edges[k] < |nodes| && l in edges && edges[l] < |nodes|
  {
    var a, b := nodes[edges[k]].total, nodes[edges[l]].total;
    a > b || (a == b && k > l)
  }

  predicate Points(nodes: seq<Node>, edges: map<Key, nat>) {
    forall k :: k in edges ==> edges[k] < |nodes|
  }

  method HeaviestKey(nodes: seq<Node>, edges: map<Key, nat>, keys: set<Key>) returns (best: Key)
    requires Points(nodes, edges) && keys != {} && keys <= edges.Keys
    ensures best in keys
    ensures forall l :: l in keys && l != best ==> Outranks(nodes, edges, best, l)
  {
    best :| best in keys;
    var rest := keys - {best};
    while rest != {}
      invariant best in keys && rest <= keys
      invariant forall l :: l in keys && l != best && l !in rest ==> Outranks(nodes, edges, best, l)
    {
      var k :| k in rest;
      rest := rest - {k};
      if k != best && Outranks(nodes, edges, k, best) {
        best := k;
      }
    }
  }

  // The children by decreasing total, and by decreasing key among equals
  method OrderedChildren(nodes: seq<Node>, edges: map<Key, nat>) returns (order: seq<Key>)
    requires Points(nodes, edges)
    ensures forall k :: k in order <==> k in edges
    ensures forall a, b :: 0 <= a < b < |order| ==> Outranks(nodes, edges, order[a], order[b])
  {
    order := [];
    var keys := edges.Keys;
    while keys != {}
      invariant keys <= edges.Keys
      invariant forall k :: k in order <==> k in edges && k !in keys
      invariant forall a, b :: 0 <= a < b < |order| ==> Outranks(nodes, edges, order[a], order[b])
      invariant forall a, k :: 0 <= a < |order| && k in keys ==> Outranks(nodes, edges, order[a], k)
    {
      var k := HeaviestKey(nodes, edges, keys);
      order := order + [k];
      keys := keys - {k};
    }
  }

  ghost function Left(order: seq<Key>, idx: nat): (r: set<Key>)
    requires idx <= |order|
  {
    set k | k in order[idx..]
  }

  // A child's total is the sum under the first prefix of its span
  lemma ChildWeight(s: Shape, log: seq<Entry>, i: nat, k: Key)
    requires Kept(s, log) && i < |s.nodes| && k in s.nodes[i].edges
    ensures EdgeOk(s, i, k) && s.nodes[s.nodes[i].edges[k]].total == SumUnder(log, s.names[i] + [k])
  {
    HookOfChild(s, i, k);
    var c := s.nodes[i].edges[k];
    PrefixOfPos(s, log, NodeOnPath(c, 1));
    assert PosName(s, NodeOnPath(c, 1)) == Hook(s, c);
  }

  // Children listed so far outrank the children still to come
  ghost predicate Ranked(log: seq<Entry>, ps: seq<Path>, base: Path, keys: set<Key>) {
    forall q, l :: q in ps && q != [] && Up(q) == base && l in keys ==> Heavier(log, q, base + [l])
  }

  lemma RankChild(s: Shape, log: seq<Entry>, i: nat, keys: set<Key>, k: Key, ps: seq<Path>, cs: seq<Path>)
    requires Kept(s, log) && i < |s.nodes| && k in s.nodes[i].edges && k !in keys && keys <= s.nodes[i].edges.Keys
    requires forall l :: l in s.nodes[i].edges ==> EdgeOk(s, i, l)
    requires forall l :: l in keys ==> Outranks(s.nodes, s.nodes[i].edges, k, l)
    requires Ranked(log, ps, s.names[i], keys + {k})
    requires forall q :: q in cs ==> s.names[i] + [k] <= q
    ensures Ranked(log, ps + cs, s.names[i], keys)
  {
    var base := s.names[i];
    ChildWeight(s, log, i, k);
    forall q, l | q in ps + cs && q != [] && Up(q) == base && l in keys ensures Heavier(log, q, base + [l]) {
      if q in cs {
        assert q == base + [k];
        ChildWeight(s, log, i, l);
      } else {
        assert q in ps;
      }
    }
  }
}
