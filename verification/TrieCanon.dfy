/**
 What the shape of the trie is determined by: which paths have a node, how
 totals split over children, and that the order of appends does not matter.
 */
module TrieCanon {
  import opened TrieShape
  import opened TrieLog

  ghost predicate Kept(s: Shape, log: seq<Entry>) {
    Books(s, log, 0, [], 0)
  }

  ghost predicate Parts(p: Path, q: Path, r: Path) {
    Proper(p, q) && Proper(p, r) && q[|p|] != r[|p|]
  }

  // Two appended paths part ways right after p
  ghost predicate Branches(log: seq<Entry>, p: Path) {
    exists e, f :: e in log && f in log && Parts(p, e.path, f.path)
  }

  ghost function Longest(names: seq<Path>): (r: nat)
    ensures forall i :: 0 <= i < |names| ==> |names[i]| <= r
  {
    if names == [] then 0
    else
      var rest := Longest(names[..|names| - 1]);
      var last := |names[|names| - 1]|;
      if rest < last then last else rest
  }

  // Below every non-root node something was appended
  lemma {:induction false} LoggedBelow(s: Shape, log: seq<Entry>, i: nat) returns (e: Entry)
    requires Kept(s, log) && 0 < i < |s.nodes|
    ensures e in log && s.names[i] <= e.path
    decreases Longest(s.names) - |s.names[i]|
  {
    OnlyRootIsEmpty(s, i);
    assert Needed(s, log, [], i);
    if InLog(log, s.names[i]) {
      e :| e in log && e.path == s.names[i];
    } else {
      var k :| k in s.nodes[i].edges;
      assert EdgeOk(s, i, k);
      e := LoggedBelow(s, log, s.nodes[i].edges[k]);
    }
  }

  // The node whose span contains the last element of p, for p a nonempty prefix of a name
  lemma {:induction false} Locus(s: Shape, p: Path, a: nat) returns (i: nat)
    requires Tree(s) && a < |s.nodes| && p != [] && p <= s.names[a]
    ensures 0 < i < |s.nodes| && Proper(Stem(s, i), p) && p <= s.names[i] <= s.names[a]
    decreases |s.names[a]|
  {
    OnlyRootIsEmpty(s, a);
    assert Hangs(s, a);
    if |Stem(s, a)| < |p| {
      i := a;
    } else {
      i := Locus(s, p, s.parent[a]);
    }
  }

  // Nothing longer than p lies on both of two paths that part at p
  lemma EndsAtParting(p: Path, name: Path, q: Path, r: Path)
    requires Parts(p, q, r) && p <= name && name <= q && name <= r
    ensures name == p
  {
  }

  lemma NodeBranches(s: Shape, log: seq<Entry>, i: nat)
    requires Kept(s, log) && i < |s.nodes| && |s.nodes[i].edges| >= 2
    ensures Branches(log, s.names[i])
  {
    var keys := s.nodes[i].edges.Keys;
    assert |keys| >= 2;
    var k :| k in keys;
    assert |keys - {k}| >= 1;
    var l :| l in keys - {k};
    assert EdgeOk(s, i, k) && EdgeOk(s, i, l);
    var e := LoggedBelow(s, log, s.nodes[i].edges[k]);
    var f := LoggedBelow(s, log, s.nodes[i].edges[l]);
    assert Parts(s.names[i], e.path, f.path);
  }

  // A path has a node exactly if it is the root, was appended, or is a branching point of appended paths
  lemma NamedIff(s: Shape, log: seq<Entry>, p: Path)
    requires Kept(s, log)
    ensures Named(s, p) <==> p == [] || InLog(log, p) || Branches(log, p)
  {
    if Named(s, p) && p != [] && !InLog(log, p) {
      var i :| 0 <= i < |s.names| && s.names[i] == p;
      assert Needed(s, log, [], i);
      NodeBranches(s, log, i);
    }
    if InLog(log, p) {
      var e :| e in log && e.path == p;
      assert Named(s, e.path);
    }
    if Branches(log, p) && p != [] {
      var e, f :| e in log && f in log && Parts(p, e.path, f.path);
      assert Named(s, e.path) && Named(s, f.path);
      var a :| 0 <= a < |s.names| && s.names[a] == e.path;
      var b :| 0 <= b < |s.names| && s.names[b] == f.path;
      var i := Locus(s, p, a);
      ThroughSpan(s, i, p, b);
      EndsAtParting(p, s.names[i], e.path, f.path);
    }
    if p == [] {
      assert s.names[0] == p;
    }
  }

  // ----- the order of appends does not matter

  lemma {:induction false} SumsSplit(a: seq<Entry>, e: Entry, b: seq<Entry>, p: Path)
    ensures SumUnder(a + [e] + b, p) == SumUnder(a + b, p) + (if p <= e.path then e.value else 0)
    ensures SumAt(a + [e] + b, p) == SumAt(a + b, p) + (if p == e.path then e.value else 0)
  {
    if b == [] {
      assert a + [e] + b == a + [e] && a + b == a;
      LogGrows(a, e, p);
    } else {
      var b', f := b[..|b| - 1], b[|b| - 1];
      SumsSplit(a, e, b', p);
      assert a + [e] + b == (a + [e] + b') + [f] && a + b == (a + b') + [f];
      LogGrows(a + [e] + b', f, p);
      LogGrows(a + b', f, p);
    }
  }

  lemma Without(log: seq<Entry>, k: nat)
    requires k < |log|
    ensures log == log[..k] + [log[k]] + log[k + 1..]
    ensures multiset(log[..k] + log[k + 1..]) == multiset(log) - multiset{log[k]}
  {
    var a, b := log[..k], log[k + 1..];
    assert log == a + [log[k]] + b;
    assert multiset(log) == multiset(a) + multiset{log[k]} + multiset(b);
  }

  lemma TakeOut(log: seq<Entry>, other: seq<Entry>) returns (a: seq<Entry>, b: seq<Entry>)
    requires multiset(log) == multiset(other) && log != []
    ensures other == a + [log[|log| - 1]] + b
    ensures multiset(log[..|log| - 1]) == multiset(a + b)
  {
    var init, e := log[..|log| - 1], log[|log| - 1];
    Without(log, |log| - 1);
    assert e in multiset(log);
    var k :| 0 <= k < |other| && other[k] == e;
    Without(other, k);
    a, b := other[..k], other[k + 1..];
    assert init + log[|log|..] == init;
    assert multiset(init) == multiset(a + b);
  }

  lemma {:induction false} SumsOfPermutation(log: seq<Entry>, other: seq<Entry>, p: Path)
    requires multiset(log) == multiset(other)
    ensures SumUnder(log, p) == SumUnder(other, p) && SumAt(log, p) == SumAt(other, p)
  {
    if log == [] {
      assert |multiset(other)| == 0;
      assert other == [];
    } else {
      var init, e := log[..|log| - 1], log[|log| - 1];
      var a, b := TakeOut(log, other);
      SumsOfPermutation(init, a + b, p);
      assert log == init + [e];
      SumsSplit(a, e, b, p);
      LogGrows(init, e, p);
    }
  }

  ghost predicate SameChild(s: Shape, i: nat, t: Shape, j: nat, k: Key)
    requires Tree(s) && Tree(t) && i < |s.nodes| && j < |t.nodes|
    requires k in s.nodes[i].edges
  {
    && k in t.nodes[j].edges
    && EdgeOk(s, i, k) && EdgeOk(t, j, k)
    && s.names[s.nodes[i].edges[k]] == t.names[t.nodes[j].edges[k]]
  }

  // Node i of one trie and node j of another stand for the same path, with
  // the same counters, and lead to the same paths under the same keys
  ghost predicate SameNode(s: Shape, i: nat, t: Shape, j: nat)
    requires Tree(s) && Tree(t) && i < |s.nodes| && j < |t.nodes|
  {
    && s.names[i] == t.names[j]
    && Stem(s, i) == Stem(t, j)
    && s.nodes[i].total == t.nodes[j].total
    && s.nodes[i].value == t.nodes[j].value
    && s.nodes[i].edges.Keys == t.nodes[j].edges.Keys
    && forall k :: k in s.nodes[i].edges ==> SameChild(s, i, t, j, k)
  }

  lemma SameNames(s: Shape, log: seq<Entry>, t: Shape, other: seq<Entry>, p: Path)
    requires Kept(s, log) && Kept(t, other) && multiset(log) == multiset(other)
    ensures Named(s, p) <==> Named(t, p)
  {
    assert forall e :: e in log <==> e in multiset(log);
    assert forall e :: e in other <==> e in multiset(other);
    NamedIff(s, log, p);
    NamedIff(t, other, p);
    assert InLog(log, p) <==> InLog(other, p);
    assert Branches(log, p) <==> Branches(other, p);
  }

  lemma ChildAgrees(s: Shape, log: seq<Entry>, t: Shape, other: seq<Entry>, i: nat, j: nat, k: Key)
    requires Kept(s, log) && Kept(t, other) && multiset(log) == multiset(other)
    requires i < |s.nodes| && j < |t.nodes| && s.names[i] == t.names[j]
    requires k in s.nodes[i].edges
    ensures SameChild(s, i, t, j, k)
  {
    assert EdgeOk(s, i, k);
    var c := s.nodes[i].edges[k];
    SameNames(s, log, t, other, s.names[c]);
    assert Named(s, s.names[c]);
    var c' :| 0 <= c' < |t.names| && t.names[c'] == s.names[c];
    Descend(t, j, c');
    var d := t.nodes[j].edges[k];
    SameNames(s, log, t, other, t.names[d]);
    assert Named(t, t.names[d]);
    var d' :| 0 <= d' < |s.names| && s.names[d'] == t.names[d];
    Descend(s, i, d');
  }

  lemma StemAgrees(s: Shape, log: seq<Entry>, t: Shape, other: seq<Entry>, i: nat, j: nat)
    requires Kept(s, log) && Kept(t, other) && multiset(log) == multiset(other)
    requires i < |s.nodes| && j < |t.nodes| && s.names[i] == t.names[j]
    ensures Stem(s, i) == Stem(t, j)
  {
    OnlyRootIsEmpty(s, i);
    OnlyRootIsEmpty(t, j);
    if i > 0 {
      assert Hangs(s, i);
      var p := s.parent[i];
      var k := s.names[i][|s.names[p]|];
      SameNames(s, log, t, other, s.names[p]);
      assert Named(s, s.names[p]);
      var q :| 0 <= q < |t.names| && t.names[q] == s.names[p];
      ChildAgrees(s, log, t, other, p, q, k);
      Unique(t, t.nodes[q].edges[k], j);
    }
  }

  // Tries built from the same appends in any order are the same up to node numbering
  lemma OrderDoesNotMatter(s: Shape, log: seq<Entry>, t: Shape, other: seq<Entry>, i: nat) returns (j: nat)
    requires Kept(s, log) && Kept(t, other) && multiset(log) == multiset(other)
    requires i < |s.nodes|
    ensures j < |t.nodes| && SameNode(s, i, t, j)
  {
    assert Named(s, s.names[i]);
    SameNames(s, log, t, other, s.names[i]);
    j :| 0 <= j < |t.names| && t.names[j] == s.names[i];
    assert CountOk(s, log, 0, 0, i) && CountOk(t, other, 0, 0, j);
    SumsOfPermutation(log, other, s.names[i]);
    StemAgrees(s, log, t, other, i, j);
    forall k | k in s.nodes[i].edges ensures SameChild(s, i, t, j, k) {
      ChildAgrees(s, log, t, other, i, j, k);
    }
    forall k | k in t.nodes[j].edges ensures k in s.nodes[i].edges {
      ChildAgrees(t, other, s, log, j, i, k);
    }
  }

  ghost function NameSet(names: seq<Path>): (r: set<Path>) {
    set i | 0 <= i < |names| :: names[i]
  }

  lemma {:induction false} DistinctNames(names: seq<Path>)
    requires forall i, j :: 0 <= i < j < |names| ==> names[i] != names[j]
    ensures |NameSet(names)| == |names|
  {
    if names != [] {
      var init := names[..|names| - 1];
      DistinctNames(init);
      assert NameSet(names) == NameSet(init) + {names[|names| - 1]};
    }
  }

  lemma SameSize(s: Shape, log: seq<Entry>, t: Shape, other: seq<Entry>)
    requires Kept(s, log) && Kept(t, other) && multiset(log) == multiset(other)
    ensures |s.nodes| == |t.nodes|
  {
    forall i, j | 0 <= i < j < |s.names| ensures s.names[i] != s.names[j] {
      if s.names[i] == s.names[j] { Unique(s, i, j); }
    }
    forall i, j | 0 <= i < j < |t.names| ensures t.names[i] != t.names[j] {
      if t.names[i] == t.names[j] { Unique(t, i, j); }
    }
    DistinctNames(s.names);
    DistinctNames(t.names);
    forall p ensures p in NameSet(s.names) <==> p in NameSet(t.names) {
      SameNames(s, log, t, other, p);
      assert p in NameSet(s.names) <==> Named(s, p);
      assert p in NameSet(t.names) <==> Named(t, p);
    }
    assert NameSet(s.names) == NameSet(t.names);
  }

  // ----- totals split over the children

  // Sum of the totals of the first n nodes that hang off i
  ghost function ChildTotals(s: Shape, i: nat, n: nat): (r: int)
    requires Sized(s) && n <= |s.nodes|
  {
    if n <= 1 then 0
    else ChildTotals(s, i, n - 1) + if s.parent[n - 1] == i then s.nodes[n - 1].total else 0
  }

  ghost function LogUnderChildren(s: Shape, log: seq<Entry>, i: nat, n: nat): (r: int)
    requires Sized(s) && n <= |s.nodes|
  {
    if n <= 1 then 0
    else LogUnderChildren(s, log, i, n - 1) + if s.parent[n - 1] == i then SumUnder(log, s.names[n - 1]) else 0
  }

  lemma {:induction false} ChildTotalsAreSums(s: Shape, log: seq<Entry>, i: nat, n: nat)
    requires Kept(s, log) && n <= |s.nodes|
    ensures ChildTotals(s, i, n) == LogUnderChildren(s, log, i, n)
  {
    if n > 1 {
      ChildTotalsAreSums(s, log, i, n - 1);
      assert CountOk(s, log, 0, 0, n - 1);
    }
  }

  // One more entry shows up under exactly one child, if it lies below i at all
  lemma {:induction false} EntryUnderChildren(s: Shape, log: seq<Entry>, more: seq<Entry>, e: Entry, i: nat, c: nat,
                                              n: nat)
    requires Sized(s) && i < |s.nodes| && n <= |s.nodes| && more == log + [e]
    requires forall j {:trigger s.parent[j]} :: 0 < j < |s.nodes| && s.parent[j] == i && s.names[j] <= e.path ==> j == c
    requires c > 0 ==> c < |s.nodes| && s.parent[c] == i && s.names[c] <= e.path
    ensures LogUnderChildren(s, more, i, n) == LogUnderChildren(s, log, i, n) + if 0 < c < n then e.value else 0
  {
    if n > 1 {
      EntryUnderChildren(s, log, more, e, i, c, n - 1);
      LogGrows(log, e, s.names[n - 1]);
    }
  }

  lemma {:induction false} NothingUnderChildren(s: Shape, i: nat, n: nat)
    requires Sized(s) && n <= |s.nodes|
    ensures LogUnderChildren(s, [], i, n) == 0
  {
    if n > 1 {
      NothingUnderChildren(s, i, n - 1);
    }
  }

  lemma {:induction false} UnderIsAtPlusChildren(s: Shape, log: seq<Entry>, i: nat)
    requires Tree(s) && Covered(s, log) && i < |s.nodes|
    ensures SumUnder(log, s.names[i]) == SumAt(log, s.names[i]) + LogUnderChildren(s, log, i, |s.nodes|)
  {
    if log == [] {
      NothingUnderChildren(s, i, |s.nodes|);
    } else {
      var init, e := log[..|log| - 1], log[|log| - 1];
      assert log == init + [e] && e in log;
      UnderIsAtPlusChildren(s, init, i);
      var c := 0;
      if Proper(s.names[i], e.path) {
        assert Named(s, e.path);
        var j :| 0 <= j < |s.names| && s.names[j] == e.path;
        Descend(s, i, j);
        c := s.nodes[i].edges[e.path[|s.names[i]|]];
      }
      forall j | 0 < j < |s.nodes| && s.parent[j] == i && s.names[j] <= e.path ensures j == c {
        assert Hangs(s, j);
        assert Proper(s.names[i], e.path) && s.names[j][|s.names[i]|] == e.path[|s.names[i]|];
      }
      EntryUnderChildren(s, init, log, e, i, c, |s.nodes|);
      LogGrows(init, e, s.names[i]);
    }
  }

  // Every total is the node's own value plus the totals of its children
  lemma TotalIsLocal(s: Shape, log: seq<Entry>, i: nat)
    requires Kept(s, log) && i < |s.nodes|
    ensures s.nodes[i].total == s.nodes[i].value + ChildTotals(s, i, |s.nodes|)
  {
    assert CountOk(s, log, 0, 0, i);
    ChildTotalsAreSums(s, log, i, |s.nodes|);
    UnderIsAtPlusChildren(s, log, i);
  }
}
