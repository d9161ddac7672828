/**
 The compressed trie itself, updated in place. Ghost fields record the name
 and parent of every node and the log of appended pairs; `Valid` says that the
 two arenas keep exact books of that log.
 */
module Trie {
  import opened TrieShape
  import opened TrieLog
  import opened TrieCanon
  import opened TrieTop
  import opened TrieListing

  ghost function Distinct(log: seq<Entry>): (r: set<Path>) {
    set e | e in log && e.path != [] :: e.path
  }

  lemma StartFrontier(s: Shape)
    requires Tree(s) && Spans(s)
    ensures Frontier(s, {}, {QueueItem(-s.nodes[0].total, 0, NodeOnPath(0, 0))})
  {
    var it := QueueItem(-s.nodes[0].total, 0, NodeOnPath(0, 0));
    assert it == ItemOf(s, it.node) && Queued(s, {}, it);
    forall x | Selected(s, {}, x) ensures ItemOf(s, x) == it {
    }
  }

  lemma SelectStep(s: Shape, log: seq<Entry>, sel: set<NodeOnPath>, queue: set<QueueItem>, it: QueueItem,
                   pushed: set<QueueItem>)
    requires Kept(s, log) && Closed(s, sel) && Frontier(s, sel, queue)
    requires it in queue && (forall o :: o in queue ==> Before(it, o)) && Pushed(s, it.node, pushed)
    requires Greedy(log, NamesOf(s, sel))
    ensures it.node !in sel && Closed(s, sel + {it.node})
    ensures Frontier(s, sel + {it.node}, queue - {it} + pushed)
    ensures Greedy(log, NamesOf(s, sel + {it.node}))
  {
    assert Queued(s, sel, it);
    SelectClosed(s, sel, queue, it);
    SelectFrontier(s, sel, queue, it, pushed);
    SelectGreedy(s, log, sel, queue, it);
  }

  // The root is selected first
  lemma RootPicked(s: Shape, sel: set<NodeOnPath>, queue: set<QueueItem>)
    requires Tree(s) && Closed(s, sel)
    ensures Closed(s, sel + {EndPos(s, 0)})
    ensures sel != {} ==> EndPos(s, 0) in sel
  {
    if sel != {} {
      var x :| x in sel;
      assert Picked(s, sel, PosName(s, x));
      PickedPrefix(s, sel, PosName(s, x), []);
      var r :| r in sel && IsPos(s, r) && PosName(s, r) == [];
      PosUnique(s, r, EndPos(s, 0));
    }
  }

  // The paths the rows stand for, decoded from the depth and key columns
  ghost function Decoded(rows: seq<RetrievedNode>): (ps: seq<Path>) {
    seq(|rows|, j requires 0 <= j < |rows| => PathAt(rows, j))
  }

  lemma DecodedIs(log: seq<Entry>, rows: seq<RetrievedNode>, ps: seq<Path>)
    requires Listing(log, rows, ps) && ps != [] && ps[0] == []
    ensures Decoded(rows) == ps
  {
    forall j | 0 <= j < |rows| ensures PathAt(rows, j) == ps[j] {
      DecodeListing(log, rows, ps, j);
    }
  }

  lemma PicksCount(s: Shape, log: seq<Entry>, count: nat, sel: set<NodeOnPath>, queue: set<QueueItem>,
                   picks: set<NodeOnPath>)
    requires Kept(s, log) && Frontier(s, sel, queue) && picks == sel + {EndPos(s, 0)}
    requires |sel| <= count && (|sel| == count || queue == {}) && (count > 0 ==> sel != {})
    requires sel != {} ==> EndPos(s, 0) in sel
    ensures |picks| == if count == 0 then 1 else if count <= 1 + |Prefixes(log)| then count else 1 + |Prefixes(log)|
  {
    SelectedCount(s, log, sel, queue);
    AllCount(log);
    if sel != {} {
      assert picks == sel;
    }
  }

  lemma PicksInLog(s: Shape, log: seq<Entry>, sel: set<NodeOnPath>, queue: set<QueueItem>, picks: set<NodeOnPath>)
    requires Kept(s, log) && Frontier(s, sel, queue) && picks == sel + {EndPos(s, 0)} && IsPos(s, EndPos(s, 0))
    ensures NamesOf(s, picks) <= All(log)
  {
    forall q | q in NamesOf(s, picks) ensures q in All(log) {
      SelectedIsPrefix(s, log, picks, q);
    }
  }

  // Selecting nothing leaves the root, which is above everything
  lemma PicksAreGreedy(s: Shape, log: seq<Entry>, sel: set<NodeOnPath>, picks: set<NodeOnPath>)
    requires Tree(s) && (forall x :: x in sel ==> IsPos(s, x)) && Greedy(log, NamesOf(s, sel))
    requires picks == sel + {EndPos(s, 0)} && IsPos(s, EndPos(s, 0)) && (sel != {} ==> EndPos(s, 0) in sel)
    ensures Greedy(log, NamesOf(s, picks))
  {
    if sel == {} {
      assert PosName(s, EndPos(s, 0)) == [];
    } else {
      assert picks == sel;
    }
  }

  // The paths listed are exactly the picked prefixes
  lemma ListsNames(s: Shape, log: seq<Entry>, picks: set<NodeOnPath>, rows: seq<RetrievedNode>, ps: seq<Path>)
    requires Tree(s) && Closed(s, picks)
    requires Listing(log, rows, ps) && Lists(s, picks, 0, {}, ps)
    ensures NameSet(ps) == NamesOf(s, picks) && |rows| == |picks|
    ensures forall p :: p in ps <==> p in NamesOf(s, picks)
    ensures forall p :: p in ps && p != [] ==> Up(p) in ps
  {
    forall q ensures q in ps <==> q in NamesOf(s, picks) {
      assert Picked(s, picks, q) <==> q in NamesOf(s, picks);
      assert InBranch(s, 0, {}, q);
    }
    assert NameSet(ps) == NamesOf(s, picks);
    DistinctNames(ps);
    NamesCount(s, picks);
    forall p | p in ps && p != [] ensures Up(p) in ps {
      assert Picked(s, picks, p);
      PickedPrefix(s, picks, p, Up(p));
    }
  }

  // What GetTop promises, stated on the rows and the log alone
  ghost predicate TopListing(log: seq<Entry>, count: nat, rows: seq<RetrievedNode>) {
    var ps := Decoded(rows);
    // as many rows as asked for, if there are that many prefixes; the root row is always there
    && |rows| == (if count == 0 then 1 else if count <= 1 + |Prefixes(log)| then count else 1 + |Prefixes(log)|)
    // different paths in preorder, siblings by decreasing weight, each row with the sums of its path
    && Listing(log, rows, ps)
    // all of them appended prefixes, and a closed set of them
    && (forall p :: p in ps ==> p in All(log))
    && (forall p :: p in ps && p != [] ==> Up(p) in ps)
    // whatever a listed path passes over yields to it: on the way there, past the
    // fork, lies something no heavier
    && Greedy(log, NameSet(ps))
    // no alternative at any fork on the way to a listed path is heavier than that path
    && Chosen(log, NameSet(ps))
    // with nonnegative values nothing left out is heavier than anything listed
    && (Nonnegative(log) ==> Best(log, NameSet(ps)))
  }

  lemma ListingIsTop(s: Shape, log: seq<Entry>, count: nat, sel: set<NodeOnPath>, queue: set<QueueItem>,
                     rows: seq<RetrievedNode>, ps: seq<Path>)
    requires Kept(s, log) && Closed(s, sel) && Frontier(s, sel, queue)
    requires |sel| <= count && (|sel| == count || queue == {}) && (count > 0 ==> sel != {})
    requires Greedy(log, NamesOf(s, sel))
    requires Listing(log, rows, ps) && ps != [] && ps[0] == []
    requires Lists(s, sel + {EndPos(s, 0)}, 0, {}, ps)
    ensures TopListing(log, count, rows)
  {
    var picks := sel + {EndPos(s, 0)};
    RootPicked(s, sel, queue);
    PicksCount(s, log, count, sel, queue, picks);
    ListsNames(s, log, picks, rows, ps);
    DecodedIs(log, rows, ps);
    PicksInLog(s, log, sel, queue, picks);
    PicksAreGreedy(s, log, sel, picks);
    GreedyIsChosen(log, NameSet(ps));
    if Nonnegative(log) {
      GreedyIsBest(log, NameSet(ps));
    }
  }

  lemma AddsOne<T>(a: set<T>, x: T)
    requires x !in a
    ensures |a + {x}| == |a| + 1
  {
  }

  ghost predicate Handled(s: Shape, i: nat, keys: set<Key>, c: nat, n: nat, y: NodeOnPath)
    requires Tree(s) && i < |s.nodes|
  {
    && y.nodeId < |s.nodes| && |s.names[i]| < |s.names[y.nodeId]|
    && (s.names[y.nodeId][|s.names[i]|] !in keys || (y.nodeId == c && y.pathSize <= n))
  }

  // The items of the children under the keys already handled, and of the first n positions of child c
  ghost predicate PushedSoFar(s: Shape, i: nat, keys: set<Key>, c: nat, n: nat, pushed: set<QueueItem>)
    requires Tree(s) && i < |s.nodes|
  {
    && (forall o :: o in pushed ==> Opens(s, EndPos(s, i), o.node) && o == ItemOf(s, o.node))
    && (forall y :: Opens(s, EndPos(s, i), y) && Handled(s, i, keys, c, n, y) ==> ItemOf(s, y) in pushed)
  }

  lemma PushOne(s: Shape, i: nat, k: Key, keys: set<Key>, n: nat, pushed: set<QueueItem>, item: QueueItem)
    requires Tree(s) && i < |s.nodes| && k in s.nodes[i].edges && EdgeOk(s, i, k)
    requires n < |s.names[s.nodes[i].edges[k]]| - |s.names[i]|
    requires PushedSoFar(s, i, keys, s.nodes[i].edges[k], n, pushed)
    requires var c := s.nodes[i].edges[k];
      item == QueueItem(-s.nodes[c].total, |s.names[i]| + n + 1, NodeOnPath(c, n + 1))
    ensures PushedSoFar(s, i, keys, s.nodes[i].edges[k], n + 1, pushed + {item})
  {
    var c := s.nodes[i].edges[k];
    assert Hangs(s, c);
    assert Stem(s, c) == s.names[i];
    assert Opens(s, EndPos(s, i), item.node);
    assert ItemOf(s, item.node) == item;
    forall y | Opens(s, EndPos(s, i), y) && Handled(s, i, keys, c, n + 1, y)
      ensures ItemOf(s, y) in pushed + {item}
    {
      assert y == item.node || Handled(s, i, keys, c, n, y);
    }
  }

  lemma AddItem(a: set<QueueItem>, b: set<QueueItem>, x: QueueItem)
    ensures a + b + {x} == a + (b + {x})
  {
  }

  lemma StartChild(s: Shape, i: nat, keys: set<Key>, c: nat, pushed: set<QueueItem>)
    requires Tree(s) && i < |s.nodes| && PushedSoFar(s, i, keys, 0, 0, pushed)
    ensures PushedSoFar(s, i, keys, c, 0, pushed)
  {
    forall y | Opens(s, EndPos(s, i), y) && Handled(s, i, keys, c, 0, y) ensures ItemOf(s, y) in pushed {
      assert Handled(s, i, keys, 0, 0, y);
    }
  }

  // All positions of one child are pushed
  lemma PushedChild(s: Shape, i: nat, k: Key, keys: set<Key>, n: nat, pushed: set<QueueItem>)
    requires Tree(s) && i < |s.nodes| && k in s.nodes[i].edges && EdgeOk(s, i, k)
    requires n == |s.names[s.nodes[i].edges[k]]| - |s.names[i]|
    requires PushedSoFar(s, i, keys, s.nodes[i].edges[k], n, pushed)
    ensures PushedSoFar(s, i, keys - {k}, 0, 0, pushed)
  {
    var c := s.nodes[i].edges[k];
    forall y | Opens(s, EndPos(s, i), y) && Handled(s, i, keys - {k}, 0, 0, y) ensures ItemOf(s, y) in pushed {
      if s.names[y.nodeId][|s.names[i]|] == k {
        assert Hangs(s, y.nodeId) && s.parent[y.nodeId] == i;
        assert y.nodeId == c;
      }
      assert Handled(s, i, keys, c, n, y);
    }
  }

  lemma AllPushed(s: Shape, i: nat, pushed: set<QueueItem>)
    requires Tree(s) && i < |s.nodes| && PushedSoFar(s, i, {}, 0, 0, pushed)
    ensures Pushed(s, EndPos(s, i), pushed)
  {
    forall y | Opens(s, EndPos(s, i), y) ensures ItemOf(s, y) in pushed {
      assert Hangs(s, y.nodeId) && s.parent[y.nodeId] == i;
      assert Handled(s, i, {}, 0, 0, y);
    }
  }

  lemma NonePushed(s: Shape, x: NodeOnPath)
    requires Tree(s) && IsPos(s, x) && x != EndPos(s, x.nodeId)
    ensures Pushed(s, x, {})
  {
    forall y ensures !Opens(s, x, y) {
    }
  }

  lemma NothingYet(s: Shape, i: nat)
    requires Tree(s) && i < |s.nodes|
    ensures PushedSoFar(s, i, s.nodes[i].edges.Keys, 0, 0, {})
  {
    forall y | Opens(s, EndPos(s, i), y) ensures !Handled(s, i, s.nodes[i].edges.Keys, 0, 0, y) {
      assert Hangs(s, y.nodeId) && s.parent[y.nodeId] == i;
    }
  }

  lemma {:induction false} HasFirst(queue: set<QueueItem>) returns (it: QueueItem)
    requires queue != {}
    ensures it in queue && forall o :: o in queue ==> Before(it, o)
  {
    var x :| x in queue;
    var rest := queue - {x};
    assert queue == rest + {x};
    if rest == {} {
      it := x;
    } else {
      it := HasFirst(rest);
      if Before(x, it) {
        it := x;
      }
    }
  }

  lemma Regroup(a: seq<RetrievedNode>, b: seq<RetrievedNode>, c: seq<RetrievedNode>, ps: seq<Path>, cs: seq<Path>)
    requires ps != []
    ensures a + b + c == a + (b + c)
    ensures (ps + cs)[0] == ps[0]
  {
  }

  // The listing of a branch when the children under `keys` are still to come
  ghost predicate Branching(s: Shape, log: seq<Entry>, picks: set<NodeOnPath>, i: nat, keys: set<Key>,
                            rows: seq<RetrievedNode>, ps: seq<Path>)
    requires Tree(s) && i < |s.nodes|
  {
    && Listing(log, rows, ps) && Lists(s, picks, i, keys, ps)
    && ps != [] && s.names[i] <= ps[|ps| - 1] && Ranked(log, ps, s.names[i], keys)
  }

  lemma LeftStep(nodes: seq<Node>, edges: map<Key, nat>, order: seq<Key>, idx: nat)
    requires Points(nodes, edges) && idx < |order|
    requires forall k :: k in order <==> k in edges
    requires forall a, b :: 0 <= a < b < |order| ==> Outranks(nodes, edges, order[a], order[b])
    ensures order[idx] in Left(order, idx) && Left(order, idx) <= edges.Keys
    ensures Left(order, idx) - {order[idx]} == Left(order, idx + 1)
    ensures forall l :: l in Left(order, idx) && l != order[idx] ==> Outranks(nodes, edges, order[idx], l)
  {
    assert order[idx..] == [order[idx]] + order[idx + 1..];
    forall l | l in Left(order, idx + 1) ensures Outranks(nodes, edges, order[idx], l) {
      var c :| 0 <= c < |order[idx + 1..]| && order[idx + 1..][c] == l;
      assert order[idx + 1 + c] == l;
    }
  }

  lemma JoinBranch(log: seq<Entry>, rows: seq<RetrievedNode>, ps: seq<Path>, more: seq<RetrievedNode>, cs: seq<Path>,
                   base: Path, k: Key, keys: set<Key>)
    requires Listing(log, rows, ps) && Listing(log, more, cs) && Ranked(log, ps, base, keys) && k in keys
    requires ps != [] && base <= ps[|ps| - 1]
    requires cs != [] ==> cs[0] == base + [k]
    requires forall q :: q in cs ==> base + [k] <= q
    requires forall q :: q in ps ==> !(base + [k] <= q)
    ensures Listing(log, rows + more, ps + cs)
  {
    JoinListings(log, rows, ps, more, cs, base, k);
  }

  // The paths of a child's branch go through its key, those listed before do not
  lemma BranchApart(s: Shape, picks: set<NodeOnPath>, i: nat, keys: set<Key>, k: Key, ps: seq<Path>, cs: seq<Path>)
    requires Tree(s) && i < |s.nodes| && k in keys && keys <= s.nodes[i].edges.Keys && EdgeOk(s, i, k)
    requires Lists(s, picks, i, keys, ps) && Lists(s, picks, s.nodes[i].edges[k], {}, cs)
    requires Hook(s, s.nodes[i].edges[k]) == s.names[i] + [k]
    ensures forall q :: q in cs ==> s.names[i] + [k] <= q
    ensures forall q :: q in ps ==> !(s.names[i] + [k] <= q)
  {
    forall q | q in cs ensures s.names[i] + [k] <= q {
      assert InBranch(s, s.nodes[i].edges[k], {}, q);
    }
    forall q | q in ps ensures !(s.names[i] + [k] <= q) {
      assert InBranch(s, i, keys, q);
    }
  }

  lemma EndsBelow(base: Path, k: Key, ps: seq<Path>, cs: seq<Path>)
    requires ps != [] && base <= ps[|ps| - 1] && forall q :: q in cs ==> base + [k] <= q
    ensures base <= (ps + cs)[|ps + cs| - 1]
  {
    if cs != [] {
      assert (ps + cs)[|ps + cs| - 1] == cs[|cs| - 1] && cs[|cs| - 1] in cs;
    }
  }

  lemma AddBranch(s: Shape, log: seq<Entry>, picks: set<NodeOnPath>, i: nat, keys: set<Key>, k: Key,
                  rows: seq<RetrievedNode>, ps: seq<Path>, more: seq<RetrievedNode>, cs: seq<Path>)
    requires Kept(s, log) && i < |s.nodes| && k in keys && keys <= s.nodes[i].edges.Keys
    requires Branching(s, log, picks, i, keys, rows, ps)
    requires forall l :: l in s.nodes[i].edges ==> EdgeOk(s, i, l)
    requires forall l :: l in keys && l != k ==> Outranks(s.nodes, s.nodes[i].edges, k, l)
    requires Hook(s, s.nodes[i].edges[k]) == s.names[i] + [k]
    requires Listing(log, more, cs) && Lists(s, picks, s.nodes[i].edges[k], {}, cs)
    requires cs != [] ==> cs[0] == s.names[i] + [k]
    ensures Branching(s, log, picks, i, keys - {k}, rows + more, ps + cs)
  {
    BranchApart(s, picks, i, keys, k, ps, cs);
    JoinBranch(log, rows, ps, more, cs, s.names[i], k, keys);
    ChildListed(s, picks, i, keys, k, ps, cs);
    assert keys - {k} + {k} == keys;
    RankChild(s, log, i, keys - {k}, k, ps, cs);
    EndsBelow(s.names[i], k, ps, cs);
  }

  // How many nodes an append has added so far
  ghost predicate Grown(s: Shape, log: seq<Entry>, path: Path, root: nat, before: nat)
    requires Tree(s) && root < |s.nodes|
  {
    || |s.nodes| == before
    || (&& s.names[root] == path != []
        && !InLog(log, path)
        && |s.nodes| <= before + 2
        && (before == 1 ==> |s.nodes| == 2))
  }

  ghost predicate Walking(s: Shape, log: seq<Entry>, value: int, path: Path, root: nat, rest: Path, before: nat) {
    && Books(s, log, value, path, root)
    && path == Stem(s, root) + rest
    && (root > 0 ==>
          && Needed(s, log, path, root)
          && rest != []
          && Hangs(s, root)
          && s.names[root][|Stem(s, root)|] == rest[0])
    && Grown(s, log, path, root, before)
  }

  // The loop invariant of Append: either on the way to the end of the path or there
  ghost predicate Arriving(s: Shape, log: seq<Entry>, value: int, path: Path, root: nat, rest: Path, before: nat) {
    if rest != [] then Walking(s, log, value, path, root, rest, before)
    else Books(s, log, value, path, root) && s.names[root] == path && Grown(s, log, path, root, before)
  }

  ghost function NextShape(s: Shape, root: nat, rest: Path, value: int): (r: Shape)
    requires Sized(s) && root < |s.nodes| && rest != []
  {
    Count(if rest[0] in s.nodes[root].edges then s else AddShape(s, root, rest), root, value, 0)
  }

  ghost function NextId(s: Shape, root: nat, rest: Path): (r: nat)
    requires Sized(s) && root < |s.nodes| && rest != []
  {
    if rest[0] in s.nodes[root].edges then s.nodes[root].edges[rest[0]] else |s.nodes|
  }

  lemma StartBooks(s: Shape, log: seq<Entry>, value: int, path: Path)
    requires Books(s, log, 0, [], 0)
    ensures Books(s, log, value, path, 0)
  {
    forall i | 0 <= i < |s.nodes| ensures CountOk(s, log, value, 0, i) {
      assert CountOk(s, log, 0, 0, i);
    }
    forall i | 0 < i < |s.nodes| ensures Needed(s, log, path, i) {
      assert Needed(s, log, [], i);
      OnlyRootIsEmpty(s, i);
    }
  }

  ghost predicate Whole(s: Shape, root: nat, matched: nat)
    requires root < |s.nodes|
  {
    s.nodes[root].begin + matched == s.nodes[root].end
  }

  ghost predicate Spread(s: Shape, log: seq<Entry>, path: Path, root: nat, rest: Path, before: nat, whole: bool)
    requires Tree(s) && root < |s.nodes|
  {
    && path == s.names[root] + rest
    && (rest != [] ==> |s.nodes| == if whole then before else before + 1)
    && (rest != [] && root > 0 && whole ==> Needed(s, log, path, root))
    && (!whole ==> root > 0 && |s.nodes[root].edges| == 1 && !InLog(log, path) && before > 1)
    && (!whole && rest != [] ==> rest[0] !in s.nodes[root].edges)
    && (rest == [] ==> Grown(s, log, path, root, before))
  }

  // SplitPath matched the first `matched` elements of `rest` against the span of `root`
  ghost predicate Matched(s: Shape, root: nat, rest: Path, matched: nat)
    requires Tree(s) && root < |s.nodes| && SpanOk(s, root)
  {
    var span := s.paths[s.nodes[root].begin..s.nodes[root].end];
    && matched <= |span| && matched <= |rest|
    && span[..matched] == rest[..matched]
    && (matched < |span| && matched < |rest| ==> span[matched] != rest[matched])
  }

  lemma WholeStep(s: Shape, log: seq<Entry>, value: int, path: Path, root: nat, rest: Path, matched: nat, before: nat)
    requires Walking(s, log, value, path, root, rest, before) && rest != []
    requires SpanOk(s, root) && Matched(s, root, rest, matched) && Whole(s, root, matched)
    ensures Spread(s, log, path, root, rest[matched..], before, true)
  {
    var span := s.paths[s.nodes[root].begin..s.nodes[root].end];
    assert span[..matched] == span;
    assert rest == rest[..matched] + rest[matched..];
    assert path == s.names[root] + rest[matched..];
  }

  // A span that matches only in part leads away from the path, so the path was never appended
  lemma OffPath(s: Shape, log: seq<Entry>, path: Path, root: nat, rest: Path, matched: nat)
    requires Tree(s) && Covered(s, log) && 0 < root < |s.nodes| && SpanOk(s, root)
    requires path == Stem(s, root) + rest
    requires Matched(s, root, rest, matched) && !Whole(s, root, matched) && 0 < matched
    ensures !(s.names[root] <= path) && !InLog(log, path)
    ensures s.names[root][..|Stem(s, root)| + matched] + rest[matched..] == path
  {
    var stem := Stem(s, root);
    var span := s.paths[s.nodes[root].begin..s.nodes[root].end];
    var q := stem + span[..matched];
    assert s.names[root][..|stem| + matched] == q;
    assert rest == rest[..matched] + rest[matched..];
    assert q + rest[matched..] == path;
    assert s.names[root][|stem|..] == span && path[|stem|..] == rest;
    LoggedThroughSpan(s, log, root, q);
  }

  lemma PartStep(s: Shape, log: seq<Entry>, value: int, path: Path, root: nat, rest: Path, matched: nat, before: nat)
    requires Walking(s, log, value, path, root, rest, before) && rest != []
    requires SpanOk(s, root) && Matched(s, root, rest, matched) && !Whole(s, root, matched)
    requires 0 < root && 0 < matched
    ensures var t := SplitShape(s, root, matched);
      Books(t, log, value, path, root) && Spread(t, log, path, root, rest[matched..], before, false)
  {
    var t := SplitShape(s, root, matched);
    OffPath(s, log, path, root, rest, matched);
    SplitBooks(s, log, value, path, root, matched);
    SplitNames(s, root, matched);
  }

  // What SplitPath establishes inside Append: the name of root is now a prefix of the path
  lemma SplitStep(s: Shape, log: seq<Entry>, value: int, path: Path, root: nat, rest: Path, matched: nat, before: nat)
    requires Walking(s, log, value, path, root, rest, before) && rest != []
    requires SpanOk(s, root) && Matched(s, root, rest, matched)
    ensures
      var t := if Whole(s, root, matched) then s else SplitShape(s, root, matched);
      Books(t, log, value, path, root) && Spread(t, log, path, root, rest[matched..], before, Whole(s, root, matched))
    ensures root > 0 ==> matched > 0
  {
    SpanOfNode(s, root);
    if Whole(s, root, matched) {
      WholeStep(s, log, value, path, root, rest, matched, before);
    } else {
      PartStep(s, log, value, path, root, rest, matched, before);
    }
  }

  lemma AddNeeded(s: Shape, log: seq<Entry>, path: Path, root: nat, rest: Path, before: nat, whole: bool)
    requires Tree(s) && root < |s.nodes| && rest != []
    requires rest[0] !in s.nodes[root].edges
    requires Spread(s, log, path, root, rest, before, whole)
    ensures root > 0 ==> Needed(AddShape(s, root, rest), log, path, root)
  {
    var had, has := s.nodes[root].edges, AddShape(s, root, rest).nodes[root].edges;
    assert had.Keys + {rest[0]} == has.Keys;
    assert |has.Keys| == |had.Keys| + 1;
  }

  lemma AddStep(s: Shape, log: seq<Entry>, value: int, path: Path, root: nat, rest: Path, before: nat, whole: bool)
    requires Books(s, log, value, path, root) && rest != []
    requires rest[0] !in s.nodes[root].edges
    requires Spread(s, log, path, root, rest, before, whole)
    ensures Walking(Count(AddShape(s, root, rest), root, value, 0), log, value, path, |s.nodes|, rest, before)
  {
    var a := AddShape(s, root, rest);
    AddTree(s, root, rest);
    AddBooks(s, log, value, path, root, rest);
    MissingEdge(s, log, root, rest);
    AddNeeded(s, log, path, root, rest, before, whole);
    CountTree(a, root, value, 0);
    AdvanceBooks(a, log, value, path, root, |s.nodes|);
    assert Hangs(Count(a, root, value, 0), |s.nodes|);
  }

  lemma EdgeStep(s: Shape, log: seq<Entry>, value: int, path: Path, root: nat, rest: Path, before: nat, whole: bool)
    requires Books(s, log, value, path, root) && rest != []
    requires rest[0] in s.nodes[root].edges
    requires Spread(s, log, path, root, rest, before, whole)
    ensures
      var c := s.nodes[root].edges[rest[0]];
      0 < c && Walking(Count(s, root, value, 0), log, value, path, c, rest, before)
  {
    var c := s.nodes[root].edges[rest[0]];
    assert EdgeOk(s, root, rest[0]);
    CountTree(s, root, value, 0);
    AdvanceBooks(s, log, value, path, root, c);
    assert Needed(s, log, path, c);
    assert Hangs(Count(s, root, value, 0), c);
  }

  lemma NextStep(s: Shape, log: seq<Entry>, value: int, path: Path, root: nat, rest: Path, before: nat, whole: bool)
    requires Books(s, log, value, path, root) && rest != []
    requires Spread(s, log, path, root, rest, before, whole)
    ensures NextId(s, root, rest) > 0
    ensures Walking(NextShape(s, root, rest, value), log, value, path, NextId(s, root, rest), rest, before)
  {
    if rest[0] in s.nodes[root].edges {
      EdgeStep(s, log, value, path, root, rest, before, whole);
    } else {
      AddStep(s, log, value, path, root, rest, before, whole);
    }
  }

  lemma DistinctGrows(log: seq<Entry>, e: Entry)
    ensures Distinct(log + [e]) == Distinct(log) + (if e.path == [] then {} else {e.path})
    ensures |Distinct(log + [e])| == |Distinct(log)| + if e.path == [] || InLog(log, e.path) then 0 else 1
  {
    assert e in log + [e];
    assert Distinct(log + [e]) == Distinct(log) + (if e.path == [] then {} else {e.path});
    if e.path != [] && InLog(log, e.path) {
      assert Distinct(log + [e]) == Distinct(log);
    }
  }

  class CompressedTrie {
    var nodes: seq<Node>
    var paths: seq<Key>

    ghost var names: seq<Path>
    ghost var parent: seq<nat>
    ghost var log: seq<Entry>

    ghost function View(): (s: Shape)
      reads this
    {
      Shape(nodes, paths, names, parent)
    }

    ghost predicate Valid()
      reads this
    {
      && Books(View(), log, 0, [], 0)
      && |nodes| <= (if |Distinct(log)| == 0 then 1 else 2 * |Distinct(log)|)
    }

    constructor ()
      ensures Valid() && log == []
    {
      nodes := [Node(0, 0, map[], 0, 0)];
      paths := [];
      names := [[]];
      parent := [0];
      log := [];
    }

    // Appends a path to the path arena
    method CreatePath(path: Path) returns (begin: nat, end: nat)
      modifies this`paths
      ensures paths == old(paths) + path
      ensures begin == |old(paths)| && end == |paths|
    {
      begin := |paths|;
      paths := paths + path;
      end := |paths|;
    }

    // Matches the span of `root` against the path and splits the node after
    // the matched part if the span does not match completely
    method SplitPath(root: nat, path: Path) returns (matched: nat)
      requires Tree(View()) && Spans(View()) && root < |nodes| && SpanOk(View(), root)
      modifies this`nodes, this`names, this`parent
      ensures
        var n := old(nodes[root]);
        var span := paths[n.begin..n.end];
        && matched <= |span| && matched <= |path|
        && span[..matched] == path[..matched]
        && (matched < |span| && matched < |path| ==> span[matched] != path[matched])
        && View() == if matched == |span| then old(View()) else SplitShape(old(View()), root, matched)
    {
      var node := nodes[root];
      var size := node.end - node.begin;
      var maxMatched := if |path| < size then |path| else size;
      matched := 0;
      while matched < maxMatched
        invariant matched <= maxMatched
        invariant forall j :: 0 <= j < matched ==> path[j] == paths[node.begin + j]
      {
        if path[matched] != paths[node.begin + matched] {
          break;
        }
        matched := matched + 1;
      }
      assert paths[node.begin..node.end][..matched] == path[..matched];
      if matched == size {
        return;
      }
      var key := paths[node.begin + matched];
      var leftoverId := |nodes|;
      ghost var before := View();

      nodes := nodes + [Node(node.begin + matched, node.end, node.edges, node.total, node.value)];
      nodes := nodes[root := Node(node.begin, node.begin + matched, map[key := leftoverId], node.total, 0)];

      parent := SplitShape(before, root, matched).parent;
      names := SplitShape(before, root, matched).names;
      assert nodes == SplitShape(before, root, matched).nodes;
    }

    // Adds the value to the total of `root` and finds or creates the child that continues the path
    method NextNode(root: nat, path: Path, value: int) returns (next: nat)
      requires Sized(View()) && root < |nodes| && path != []
      modifies this
      ensures log == old(log)
      ensures View() == NextShape(old(View()), root, path, value)
      ensures next == NextId(old(View()), root, path)
    {
      var node := nodes[root];
      nodes := nodes[root := node.(total := node.total + value)];
      var key := path[0];
      if key !in node.edges {
        next := |nodes|;
        var begin, end := CreatePath(path);
        nodes := nodes + [Node(begin, end, map[], 0, 0)];
        nodes := nodes[root := nodes[root].(edges := node.edges[key := next])];
        names := names + [names[root] + path];
        parent := parent + [root];
      } else {
        next := node.edges[key];
      }
    }

    method AccountAt(root: nat, value: int)
      requires Sized(View()) && root < |nodes|
      modifies this`nodes
      ensures View() == Count(old(View()), root, value, value)
    {
      var node := nodes[root];
      nodes := nodes[root := node.(total := node.total + value, value := node.value + value)];
    }

    // One turn of the loop of Append: split at `root`, then move on to the child if path is left
    method Advance(root: nat, rest: Path, value: int, ghost path: Path, ghost before: nat)
      returns (next: nat, left: Path)
      requires Walking(View(), log, value, path, root, rest, before) && rest != []
      modifies this
      ensures log == old(log)
      ensures |left| < |rest| || (left == rest && root == 0 < next)
      ensures Arriving(View(), log, value, path, next, left, before)
    {
      SpanOfNode(View(), root);
      ghost var start := View();
      var matched := SplitPath(root, rest);
      SplitStep(start, log, value, path, root, rest, matched, before);
      next, left := root, rest[matched..];
      if left != [] {
        NextStep(View(), log, value, path, root, left, before, Whole(start, root, matched));
        next := NextNode(root, left, value);
      }
    }

    // Accounts `value` on the whole path, splitting and adding nodes on the way
    method Append(path: Path, value: int)
      requires Valid()
      modifies this
      ensures Valid()
      ensures log == old(log) + [Entry(path, value)]
      ensures |nodes| <= |old(nodes)| + 2
      ensures InLog(old(log), path) || path == [] ==> |nodes| == |old(nodes)|
    {
      var root: nat := 0;
      var rest := path;
      StartBooks(View(), log, value, path);
      while rest != []
        invariant Arriving(View(), log, value, path, root, rest, |old(nodes)|)
        invariant log == old(log)
        decreases |rest|, if root == 0 then 1 else 0
      {
        root, rest := Advance(root, rest, value, path, |old(nodes)|);
      }
      FinishBooks(View(), log, value, path, root);
      AccountAt(root, value);
      DistinctGrows(log, Entry(path, value));
      log := log + [Entry(path, value)];
    }

    method NextDepth(nodeId: nat, depth: nat) returns (next: nat)
      requires Tree(View()) && Spans(View()) && nodeId < |nodes| && depth == |Stem(View(), nodeId)|
      ensures next == |names[nodeId]|
    {
      SpanOfNode(View(), nodeId);
      next := depth + nodes[nodeId].end - nodes[nodeId].begin;
    }

    // Lists the positions of a span up to the first one that is not selected
    method RetrieveSpan(nodeId: nat, depth: nat, selected: set<NodeOnPath>, result: seq<RetrievedNode>,
                        ghost picks: set<NodeOnPath>)
      returns (out: seq<RetrievedNode>, whole: bool, ghost rows: seq<RetrievedNode>, ghost ps: seq<Path>)
      requires Kept(View(), log) && 0 < nodeId < |nodes| && depth == |Stem(View(), nodeId)|
      requires selected <= picks && SpanOk(View(), nodeId) && Hangs(View(), nodeId)
      ensures out == result + rows && |rows| <= |names[nodeId]| - depth
      ensures SpanRows(View(), log, picks, nodeId, |rows|, rows, ps)
      ensures Listing(log, rows, ps) && (|rows| > 0 ==> ps[0] == Hook(View(), nodeId))
      ensures if whole then |rows| == |names[nodeId]| - depth
        else |rows| < |names[nodeId]| - depth && NodeOnPath(nodeId, |rows| + 1) !in selected
    {
      ghost var s := View();
      var node := nodes[nodeId];
      var size: nat := node.end - node.begin;
      out, rows, ps := result, [], [];
      var pos: nat := 0;
      while pos < size && NodeOnPath(nodeId, pos + 1) in selected
        invariant pos <= size && SpanRows(s, log, picks, nodeId, pos, rows, ps)
        invariant out == result + rows
      {
        var value := if pos + 1 == size then node.value else 0;
        var row := RetrievedNode(node.total, value, depth + pos + 1, paths[node.begin + pos]);
        SpanRow(s, log, nodeId, pos, row);
        SpanStep(s, log, picks, nodeId, pos, rows, ps, row, pos + 1);
        out, rows := out + [row], rows + [row];
        ps := ps + [names[nodeId][..|Stem(s, nodeId)| + pos + 1]];
        pos := pos + 1;
      }
      SpanListing(s, log, picks, nodeId, pos, rows, ps);
      whole := pos == size;
    }

    // Lists a node's own span: all of it, or up to where the selection ends
    method RetrieveOwn(nodeId: nat, depth: nat, selected: set<NodeOnPath>, result: seq<RetrievedNode>,
                       ghost picks: set<NodeOnPath>)
      returns (out: seq<RetrievedNode>, whole: bool, ghost rows: seq<RetrievedNode>, ghost ps: seq<Path>)
      requires Kept(View(), log) && nodeId < |nodes| && depth == |Stem(View(), nodeId)|
      requires picks == selected + {EndPos(View(), 0)} && Closed(View(), picks)
      ensures out == result + rows && Listing(log, rows, ps) && (nodeId == 0 ==> whole)
      ensures !whole ==> Lists(View(), picks, nodeId, {}, ps)
      ensures whole ==> Lists(View(), picks, nodeId, nodes[nodeId].edges.Keys, ps)
      ensures whole ==> ps != [] && ps[|ps| - 1] == names[nodeId] && forall q :: q in ps ==> |q| <= |names[nodeId]|
      ensures ps != [] ==> ps[0] == Hook(View(), nodeId)
    {
      ghost var s := View();
      SpanOfNode(s, nodeId);
      if nodeId == 0 {
        var row := RetrievedNode(nodes[nodeId].total, 0, depth, 0);
        out, rows, ps := result + [row], [row], [[]];
        whole := true;
        RootListed(s, log, picks, rows);
      } else {
        out, whole, rows, ps := RetrieveSpan(nodeId, depth, selected, result, picks);
        if whole {
          SpanWhole(s, log, picks, nodeId, |rows|, rows, ps);
        } else {
          SpanCut(s, log, picks, nodeId, |rows|, rows, ps);
        }
      }
    }

    // Lists the children of a node whose own span (the rows `own`) is already listed
    method RetrieveChildren(nodeId: nat, depth: nat, selected: set<NodeOnPath>, result: seq<RetrievedNode>,
                            ghost picks: set<NodeOnPath>, ghost before: seq<RetrievedNode>,
                            ghost own: seq<RetrievedNode>, ghost ownPs: seq<Path>)
      returns (out: seq<RetrievedNode>, ghost rows: seq<RetrievedNode>, ghost ps: seq<Path>)
      requires Kept(View(), log) && nodeId < |nodes| && depth == |names[nodeId]|
      requires picks == selected + {EndPos(View(), 0)} && Closed(View(), picks)
      requires result == before + own && Listing(log, own, ownPs) && ownPs != []
      requires Lists(View(), picks, nodeId, nodes[nodeId].edges.Keys, ownPs)
      requires ownPs[|ownPs| - 1] == names[nodeId] && forall q :: q in ownPs ==> |q| <= |names[nodeId]|
      ensures out == before + rows && Listing(log, rows, ps)
      ensures Lists(View(), picks, nodeId, {}, ps)
      ensures ps != [] && ps[0] == ownPs[0]
      decreases Longest(names) - |names[nodeId]|, 0
    {
      ghost var s := View();
      var edges := nodes[nodeId].edges;
      assert forall k :: k in edges ==> EdgeOk(s, nodeId, k);
      var order := OrderedChildren(nodes, edges);
      out, rows, ps := result, own, ownPs;
      assert Left(order, 0) == edges.Keys;
      for idx := 0 to |order|
        invariant out == before + rows
        invariant Branching(s, log, picks, nodeId, Left(order, idx), rows, ps)
        invariant ps[0] == ownPs[0]
      {
        var k := order[idx];
        ghost var keys := Left(order, idx);
        LeftStep(nodes, edges, order, idx);
        HookOfChild(s, nodeId, k);
        ghost var more, cs;
        out, more, cs := RetrieveNodes(edges[k], depth, selected, out, picks);
        AddBranch(s, log, picks, nodeId, keys, k, rows, ps, more, cs);
        Regroup(before, rows, more, ps, cs);
        rows, ps := rows + more, ps + cs;
      }
    }

    // Lists the selected part of the branch of `nodeId` in preorder; `picks` is the selection with the root added
    method RetrieveNodes(nodeId: nat, depth: nat, selected: set<NodeOnPath>, result: seq<RetrievedNode>,
                         ghost picks: set<NodeOnPath>)
      returns (out: seq<RetrievedNode>, ghost rows: seq<RetrievedNode>, ghost ps: seq<Path>)
      requires Kept(View(), log) && nodeId < |nodes| && depth == |Stem(View(), nodeId)|
      requires picks == selected + {EndPos(View(), 0)} && Closed(View(), picks)
      ensures out == result + rows && Listing(log, rows, ps)
      ensures Lists(View(), picks, nodeId, {}, ps)
      ensures ps != [] ==> ps[0] == Hook(View(), nodeId)
      ensures nodeId == 0 ==> ps != []
      decreases Longest(names) - |names[nodeId]|, 1
    {
      var whole;
      out, whole, rows, ps := RetrieveOwn(nodeId, depth, selected, result, picks);
      if whole {
        var next: nat := NextDepth(nodeId, depth);
        out, rows, ps := RetrieveChildren(nodeId, next, selected, out, picks, result, rows, ps);
      }
    }

    // Pushes every position of the child under key k
    method PushSpan(nodeId: nat, k: Key, depth: nat, queue: set<QueueItem>,
                    ghost before: set<QueueItem>, ghost keys: set<Key>, ghost done: set<QueueItem>)
      returns (out: set<QueueItem>, ghost pushed: set<QueueItem>)
      requires Tree(View()) && Spans(View()) && nodeId < |nodes| && depth == |names[nodeId]|
      requires k in nodes[nodeId].edges && EdgeOk(View(), nodeId, k)
      requires queue == before + done && PushedSoFar(View(), nodeId, keys, 0, 0, done)
      ensures out == before + pushed && PushedSoFar(View(), nodeId, keys - {k}, 0, 0, pushed)
    {
      ghost var s := View();
      out, pushed := queue, done;
      var childId := nodes[nodeId].edges[k];
      SpanOfNode(s, childId);
      var size := nodes[childId].end - nodes[childId].begin;
      assert Stem(s, childId) == names[nodeId];
      StartChild(s, nodeId, keys, childId, done);
      for pos := 0 to size
        invariant out == before + pushed
        invariant PushedSoFar(s, nodeId, keys, childId, pos, pushed)
      {
        var item := QueueItem(-nodes[childId].total, depth + pos + 1, NodeOnPath(childId, pos + 1));
        PushOne(s, nodeId, k, keys, pos, pushed, item);
        AddItem(before, pushed, item);
        out, pushed := out + {item}, pushed + {item};
      }
      PushedChild(s, nodeId, k, keys, size, pushed);
    }

    // Pushes every position of every child of `nodeId`
    method PushChildren(nodeId: nat, depth: nat, queue: set<QueueItem>) returns (out: set<QueueItem>,
                                                                                 ghost pushed: set<QueueItem>)
      requires Tree(View()) && Spans(View()) && nodeId < |nodes| && depth == |names[nodeId]|
      ensures out == queue + pushed && Pushed(View(), EndPos(View(), nodeId), pushed)
    {
      ghost var s := View();
      out, pushed := queue, {};
      var edges := nodes[nodeId].edges;
      var keys := edges.Keys;
      NothingYet(s, nodeId);
      while keys != {}
        invariant keys <= edges.Keys
        invariant out == queue + pushed
        invariant PushedSoFar(s, nodeId, keys, 0, 0, pushed)
        decreases keys
      {
        var k :| k in keys;
        assert EdgeOk(s, nodeId, k);
        out, pushed := PushSpan(nodeId, k, depth, out, queue, keys, pushed);
        keys := keys - {k};
      }
      AllPushed(s, nodeId, pushed);
    }

    // Pushes what the item opens: nothing inside a span, all child positions at its end
    method PushOpened(item: QueueItem, queue: set<QueueItem>) returns (out: set<QueueItem>,
                                                                       ghost pushed: set<QueueItem>)
      requires Tree(View()) && Spans(View()) && IsPos(View(), item.node) && item == ItemOf(View(), item.node)
      ensures out == queue + pushed && Pushed(View(), item.node, pushed)
    {
      ghost var s := View();
      var nodeId := item.node.nodeId;
      SpanOfNode(s, nodeId);
      if item.node.pathSize != nodes[nodeId].end - nodes[nodeId].begin {
        NonePushed(s, item.node);
        return queue, {};
      }
      assert item.node == EndPos(s, nodeId);
      out, pushed := PushChildren(nodeId, item.depth, queue);
    }

    // Best-first selection over the positions
    method Select(count: nat) returns (selected: set<NodeOnPath>, ghost left: set<QueueItem>)
      requires Valid()
      ensures Closed(View(), selected) && Frontier(View(), selected, left)
      ensures |selected| <= count && (|selected| == count || left == {})
      ensures Greedy(log, NamesOf(View(), selected))
      ensures count > 0 ==> selected != {}
    {
      ghost var s := View();
      SpanOfNode(s, 0);
      var queue := {QueueItem(-nodes[0].total, 0, NodeOnPath(0, 0))};
      selected := {};
      StartFrontier(s);
      while |selected| < count && queue != {}
        invariant Closed(s, selected) && Frontier(s, selected, queue)
        invariant |selected| <= count
        invariant Greedy(log, NamesOf(s, selected))
        invariant queue == {} ==> selected != {}
        decreases count - |selected|
      {
        ghost var first := HasFirst(queue);
        var item :| item in queue && forall o :: o in queue ==> Before(item, o);
        assert Queued(s, selected, item);
        ghost var pushed;
        ghost var full := queue;
        queue, pushed := PushOpened(item, queue - {item});
        SelectStep(s, log, selected, full, item, pushed);
        AddsOne(selected, item.node);
        selected := selected + {item.node};
      }
      left := queue;
    }

    // The `count` heaviest uncompressed nodes, as a preorder listing
    method GetTop(count: nat) returns (rows: seq<RetrievedNode>)
      requires Valid()
      ensures TopListing(log, count, rows)
    {
      ghost var s := View();
      var selected: set<NodeOnPath>;
      ghost var queue;
      selected, queue := Select(count);
      ghost var picks := selected + {EndPos(s, 0)};
      RootPicked(s, selected, queue);
      ghost var mine, ps;
      rows, mine, ps := RetrieveNodes(0, 0, selected, [], picks);
      assert rows == mine;
      ListingIsTop(s, log, count, selected, queue, rows, ps);
    }
  }
}
