/**
 Best-first selection of the heaviest positions of the trie and their
 preorder listing.

 A position is an uncompressed node: a trie node together with how much of its
 span has been walked. Positions correspond one to one to the prefixes of the
 appended paths.
 */
module TrieTop {
  import opened TrieShape
  import opened TrieLog
  import opened TrieCanon

  datatype NodeOnPath = NodeOnPath(nodeId: nat, pathSize: nat)

  datatype QueueItem = QueueItem(negTotal: int, depth: nat, node: NodeOnPath)

  datatype RetrievedNode = RetrievedNode(total: int, value: int, depth: nat, key: Key)

  // ----- positions and prefixes

  ghost function Prefixes(log: seq<Entry>): (r: set<Path>) {
    set e, k | e in log && 1 <= k <= |e.path| :: e.path[..k]
  }

  ghost predicate IsPos(s: Shape, x: NodeOnPath)
    requires Tree(s)
  {
    && x.nodeId < |s.nodes|
    && (if x.nodeId == 0 then x.pathSize == 0
        else 1 <= x.pathSize <= |s.names[x.nodeId]| - |Stem(s, x.nodeId)|)
  }

  ghost function PosName(s: Shape, x: NodeOnPath): (r: Path)
    requires Tree(s) && IsPos(s, x)
    ensures r <= s.names[x.nodeId] && |r| == |Stem(s, x.nodeId)| + x.pathSize
  {
    s.names[x.nodeId][..|Stem(s, x.nodeId)| + x.pathSize]
  }

  // The position at the end of a node's span
  ghost function EndPos(s: Shape, i: nat): (x: NodeOnPath)
    requires Tree(s) && i < |s.nodes|
    ensures IsPos(s, x) && PosName(s, x) == s.names[i]
  {
    assert i > 0 ==> Hangs(s, i);
    assert s.names[i][..|s.names[i]|] == s.names[i];
    NodeOnPath(i, |s.names[i]| - |Stem(s, i)|)
  }

  function Up(p: Path): (r: Path)
    requires p != []
    ensures r <= p && |r| == |p| - 1
  {
    p[..|p| - 1]
  }

  ghost function Above(s: Shape, x: NodeOnPath): (y: NodeOnPath)
    requires Tree(s) && IsPos(s, x) && x.nodeId > 0
    ensures IsPos(s, y) && PosName(s, y) == Up(PosName(s, x))
  {
    assert Hangs(s, x.nodeId);
    if x.pathSize > 1 then NodeOnPath(x.nodeId, x.pathSize - 1)
    else
      var p := s.parent[x.nodeId];
      assert Up(PosName(s, x)) == s.names[p];
      EndPos(s, p)
  }

  lemma PosInSpan(s: Shape, x: NodeOnPath)
    requires Tree(s) && IsPos(s, x) && x.nodeId > 0
    ensures Proper(Stem(s, x.nodeId), PosName(s, x)) && PosName(s, x) != []
  {
  }

  // Different positions stand for different prefixes
  lemma PosUnique(s: Shape, x: NodeOnPath, y: NodeOnPath)
    requires Tree(s) && IsPos(s, x) && IsPos(s, y)
    requires PosName(s, x) == PosName(s, y)
    ensures x == y
  {
    if x.nodeId > 0 {
      PosInSpan(s, x);
    }
    if y.nodeId > 0 {
      PosInSpan(s, y);
    }
    if x.nodeId > 0 && y.nodeId > 0 {
      ThroughSpan(s, x.nodeId, PosName(s, x), y.nodeId);
      ThroughSpan(s, y.nodeId, PosName(s, y), x.nodeId);
      Unique(s, x.nodeId, y.nodeId);
    }
  }

  // Every nonempty prefix of an appended path has a position
  lemma PosOfPrefix(s: Shape, log: seq<Entry>, q: Path) returns (x: NodeOnPath)
    requires Kept(s, log) && q in Prefixes(log)
    ensures IsPos(s, x) && PosName(s, x) == q && x.nodeId > 0
  {
    var e, k :| e in log && 1 <= k <= |e.path| && q == e.path[..k];
    assert Named(s, e.path);
    var a :| 0 <= a < |s.names| && s.names[a] == e.path;
    var i := Locus(s, q, a);
    x := NodeOnPath(i, |q| - |Stem(s, i)|);
  }

  // Every position off the root is a prefix of an appended path, with the
  // sums of that prefix in its node
  lemma PrefixOfPos(s: Shape, log: seq<Entry>, x: NodeOnPath)
    requires Kept(s, log) && IsPos(s, x) && x.nodeId > 0
    ensures PosName(s, x) in Prefixes(log)
    ensures s.nodes[x.nodeId].total == SumUnder(log, PosName(s, x))
    ensures SumAt(log, PosName(s, x)) == if x == EndPos(s, x.nodeId) then s.nodes[x.nodeId].value else 0
  {
    var q := PosName(s, x);
    PosInSpan(s, x);
    var e := LoggedBelow(s, log, x.nodeId);
    assert q == e.path[..|q|];
    assert CountOk(s, log, 0, 0, x.nodeId);
    LoggedThroughSpan(s, log, x.nodeId, q);
    if x != EndPos(s, x.nodeId) {
      NothingAt(log, q);
    }
  }

  // ----- selections

  ghost predicate Closed(s: Shape, sel: set<NodeOnPath>)
    requires Tree(s)
  {
    && (forall x :: x in sel ==> IsPos(s, x))
    && (forall x {:trigger Above(s, x)} :: x in sel && x.nodeId > 0 ==> Above(s, x) in sel)
  }

  ghost predicate Picked(s: Shape, sel: set<NodeOnPath>, q: Path)
    requires Tree(s)
  {
    exists x :: x in sel && IsPos(s, x) && PosName(s, x) == q
  }

  // With a selected prefix, all shorter ones are selected
  lemma {:induction false} PickedPrefix(s: Shape, sel: set<NodeOnPath>, q: Path, r: Path)
    requires Tree(s) && Closed(s, sel) && Picked(s, sel, q) && r <= q
    ensures Picked(s, sel, r)
    decreases |q|
  {
    if |r| < |q| {
      var x :| x in sel && IsPos(s, x) && PosName(s, x) == q;
      assert x.nodeId > 0;
      assert Above(s, x) in sel;
      PickedPrefix(s, sel, Up(q), r);
    }
  }

  // ----- the frontier of the search

  ghost function ItemOf(s: Shape, x: NodeOnPath): (it: QueueItem)
    requires Tree(s) && IsPos(s, x)
  {
    QueueItem(-s.nodes[x.nodeId].total, |PosName(s, x)|, x)
  }

  predicate Before(a: QueueItem, b: QueueItem) {
    a.negTotal < b.negTotal || (a.negTotal == b.negTotal && a.depth <= b.depth)
  }

  ghost predicate Opened(s: Shape, sel: set<NodeOnPath>, x: NodeOnPath)
    requires Tree(s) && IsPos(s, x)
  {
    x.nodeId == 0 || (Hangs(s, x.nodeId) && EndPos(s, s.parent[x.nodeId]) in sel)
  }

  ghost predicate Queued(s: Shape, sel: set<NodeOnPath>, it: QueueItem)
    requires Tree(s)
  {
    IsPos(s, it.node) && it == ItemOf(s, it.node) && it.node !in sel && Opened(s, sel, it.node)
  }

  ghost predicate Selected(s: Shape, sel: set<NodeOnPath>, x: NodeOnPath)
    requires Tree(s)
  {
    IsPos(s, x) && Opened(s, sel, x)
  }

  // The queue holds exactly the opened positions that are not selected yet
  ghost predicate Frontier(s: Shape, sel: set<NodeOnPath>, queue: set<QueueItem>)
    requires Tree(s)
  {
    && (forall x :: x in sel ==> IsPos(s, x))
    && (forall it {:trigger Queued(s, sel, it)} :: it in queue ==> Queued(s, sel, it))
    && (forall x {:trigger Selected(s, sel, x)} :: x in sel ==> Selected(s, sel, x))
    && (forall x {:trigger Selected(s, sel, x)} :: Selected(s, sel, x) ==> x in sel || ItemOf(s, x) in queue)
  }

  ghost predicate Nonnegative(log: seq<Entry>) {
    forall e :: e in log ==> e.value >= 0
  }

  // Selecting x opens y
  ghost predicate Opens(s: Shape, x: NodeOnPath, y: NodeOnPath)
    requires Tree(s)
  {
    IsPos(s, y) && y.nodeId > 0 && Hangs(s, y.nodeId) && x == EndPos(s, s.parent[y.nodeId])
  }

  // The items pushed when x is selected
  ghost predicate Pushed(s: Shape, x: NodeOnPath, pushed: set<QueueItem>)
    requires Tree(s)
  {
    && (forall o :: o in pushed ==> Opens(s, x, o.node) && o == ItemOf(s, o.node))
    && (forall y :: Opens(s, x, y) ==> ItemOf(s, y) in pushed)
  }

  // Selecting the first item of the queue keeps the selection closed
  lemma SelectClosed(s: Shape, sel: set<NodeOnPath>, queue: set<QueueItem>, it: QueueItem)
    requires Tree(s) && Closed(s, sel) && Frontier(s, sel, queue)
    requires it in queue && forall o :: o in queue ==> Before(it, o)
    ensures Closed(s, sel + {it.node})
  {
    var x := it.node;
    assert Queued(s, sel, it);
    if x.nodeId > 0 && x.pathSize > 1 {
      var y := Above(s, x);
      assert Selected(s, sel, y);
      assert !Before(it, ItemOf(s, y));
    }
  }

  lemma OpenedAfter(s: Shape, sel: set<NodeOnPath>, x: NodeOnPath, y: NodeOnPath)
    requires Tree(s) && IsPos(s, y)
    ensures Opened(s, sel + {x}, y) <==> Opened(s, sel, y) || Opens(s, x, y)
  {
    if y.nodeId > 0 {
      assert Hangs(s, y.nodeId);
    }
  }

  lemma OpenedOnce(s: Shape, sel: set<NodeOnPath>, queue: set<QueueItem>, it: QueueItem, y: NodeOnPath)
    requires Tree(s) && Frontier(s, sel, queue) && it in queue
    requires Opens(s, it.node, y)
    ensures !Opened(s, sel, y) && y !in sel && y != it.node
  {
    assert Queued(s, sel, it);
    if y in sel {
      assert Selected(s, sel, y);
    }
  }

  lemma IsReached(s: Shape, sel: set<NodeOnPath>, queue: set<QueueItem>, it: QueueItem, pushed: set<QueueItem>,
                  y: NodeOnPath)
    requires Tree(s) && Frontier(s, sel, queue) && it in queue && Pushed(s, it.node, pushed)
    requires Selected(s, sel + {it.node}, y)
    ensures y in sel + {it.node} || ItemOf(s, y) in queue - {it} + pushed
  {
    OpenedAfter(s, sel, it.node, y);
    if Opened(s, sel, y) {
      assert Selected(s, sel, y);
    }
  }

  lemma PushedIsQueued(s: Shape, sel: set<NodeOnPath>, queue: set<QueueItem>, it: QueueItem, o: QueueItem)
    requires Tree(s) && Frontier(s, sel, queue) && it in queue
    requires Opens(s, it.node, o.node) && o == ItemOf(s, o.node)
    ensures Queued(s, sel + {it.node}, o)
  {
    OpenedOnce(s, sel, queue, it, o.node);
    OpenedAfter(s, sel, it.node, o.node);
  }

  lemma StaysQueued(s: Shape, sel: set<NodeOnPath>, queue: set<QueueItem>, it: QueueItem, o: QueueItem)
    requires Tree(s) && Frontier(s, sel, queue) && it in queue && o in queue && o != it
    ensures Queued(s, sel + {it.node}, o)
  {
    assert Queued(s, sel, o) && Queued(s, sel, it);
    OpenedAfter(s, sel, it.node, o.node);
  }

  lemma StaysSelected(s: Shape, sel: set<NodeOnPath>, queue: set<QueueItem>, it: QueueItem, y: NodeOnPath)
    requires Tree(s) && Frontier(s, sel, queue) && it in queue && (y in sel || y == it.node)
    ensures Selected(s, sel + {it.node}, y)
  {
    if y in sel {
      assert Selected(s, sel, y);
    } else {
      assert Queued(s, sel, it);
    }
    OpenedAfter(s, sel, it.node, y);
  }

  // Selecting an item and pushing what it opens keeps the frontier exact
  lemma SelectFrontier(s: Shape, sel: set<NodeOnPath>, queue: set<QueueItem>, it: QueueItem, pushed: set<QueueItem>)
    requires Tree(s) && Frontier(s, sel, queue) && it in queue
    requires Pushed(s, it.node, pushed)
    ensures Frontier(s, sel + {it.node}, queue - {it} + pushed)
  {
    var x := it.node;
    var wider, queued := sel + {x}, queue - {it} + pushed;
    forall o | o in queued ensures Queued(s, wider, o) {
      if o in pushed {
        PushedIsQueued(s, sel, queue, it, o);
      } else {
        StaysQueued(s, sel, queue, it, o);
      }
    }
    forall y | y in wider ensures Selected(s, wider, y) {
      StaysSelected(s, sel, queue, it, y);
    }
    forall y | Selected(s, wider, y) ensures y in wider || ItemOf(s, y) in queued {
      IsReached(s, sel, queue, it, pushed, y);
    }
  }

  // ----- what the selection amounts to

  ghost function NamesOf(s: Shape, sel: set<NodeOnPath>): (r: set<Path>)
    requires Tree(s) && forall x :: x in sel ==> IsPos(s, x)
  {
    set x | x in sel :: PosName(s, x)
  }

  lemma NamesPlus(s: Shape, sel: set<NodeOnPath>, rest: set<NodeOnPath>, x: NodeOnPath)
    requires Tree(s) && (forall y :: y in sel ==> IsPos(s, y)) && x in sel && rest == sel - {x}
    ensures PosName(s, x) !in NamesOf(s, rest) && NamesOf(s, sel) == NamesOf(s, rest) + {PosName(s, x)}
  {
    if PosName(s, x) in NamesOf(s, rest) {
      var y :| y in rest && PosName(s, y) == PosName(s, x);
      PosUnique(s, x, y);
      assert false;
    }
  }

  lemma {:induction false} NamesCount(s: Shape, sel: set<NodeOnPath>)
    requires Tree(s) && forall x :: x in sel ==> IsPos(s, x)
    ensures |NamesOf(s, sel)| == |sel|
  {
    if sel != {} {
      var x :| x in sel;
      var rest := sel - {x};
      NamesCount(s, rest);
      NamesPlus(s, sel, rest, x);
    }
  }

  lemma {:induction false} SmallerSet<T>(a: set<T>, b: set<T>)
    requires a <= b
    ensures |a| <= |b|
  {
    if a != {} {
      var x :| x in a;
      SmallerSet(a - {x}, b - {x});
    }
  }

  // With an empty queue everything is selected
  lemma {:induction false} AllSelected(s: Shape, sel: set<NodeOnPath>, x: NodeOnPath)
    requires Tree(s) && Frontier(s, sel, {}) && IsPos(s, x)
    ensures x in sel
    decreases |PosName(s, x)|
  {
    if x.nodeId > 0 {
      assert Hangs(s, x.nodeId);
      AllSelected(s, sel, EndPos(s, s.parent[x.nodeId]));
    }
    assert Selected(s, sel, x);
  }

  ghost function All(log: seq<Entry>): (r: set<Path>) {
    Prefixes(log) + {[]}
  }

  lemma AllCount(log: seq<Entry>)
    ensures |All(log)| == 1 + |Prefixes(log)|
  {
    assert [] !in Prefixes(log);
  }

  lemma SelectedIsPrefix(s: Shape, log: seq<Entry>, sel: set<NodeOnPath>, q: Path)
    requires Kept(s, log) && (forall x :: x in sel ==> IsPos(s, x)) && q in NamesOf(s, sel)
    ensures q in All(log)
  {
    var x :| x in sel && PosName(s, x) == q;
    if x.nodeId > 0 {
      PrefixOfPos(s, log, x);
    }
  }

  lemma PrefixIsSelected(s: Shape, log: seq<Entry>, sel: set<NodeOnPath>, q: Path)
    requires Kept(s, log) && Frontier(s, sel, {}) && q in All(log)
    ensures q in NamesOf(s, sel)
  {
    if q == [] {
      AllSelected(s, sel, EndPos(s, 0));
    } else {
      var x := PosOfPrefix(s, log, q);
      AllSelected(s, sel, x);
    }
  }

  lemma SelectedCount(s: Shape, log: seq<Entry>, sel: set<NodeOnPath>, queue: set<QueueItem>)
    requires Kept(s, log) && Frontier(s, sel, queue)
    ensures NamesOf(s, sel) <= All(log)
    ensures |sel| <= |All(log)|
    ensures queue == {} ==> |sel| == |All(log)|
  {
    forall q | q in NamesOf(s, sel) ensures q in All(log) {
      SelectedIsPrefix(s, log, sel, q);
    }
    NamesCount(s, sel);
    SmallerSet(NamesOf(s, sel), All(log));
    if queue == {} {
      forall q | q in All(log) ensures q in NamesOf(s, sel) {
        PrefixIsSelected(s, log, sel, q);
      }
      assert NamesOf(s, sel) == All(log);
    }
  }

  // With nonnegative values, sums only shrink on the way down
  lemma {:induction false} SumShrinks(log: seq<Entry>, p: Path, q: Path)
    requires Nonnegative(log) && p <= q
    ensures SumUnder(log, q) <= SumUnder(log, p)
  {
    if log != [] {
      assert log[|log| - 1] in log;
      SumShrinks(log[..|log| - 1], p, q);
    }
  }

  // On the way to anything left out waits a queued position
  lemma {:induction false} LeftOut(s: Shape, sel: set<NodeOnPath>, queue: set<QueueItem>, y: NodeOnPath)
    returns (it: QueueItem)
    requires Tree(s) && Frontier(s, sel, queue)
    requires IsPos(s, y) && y !in sel
    ensures it in queue && Queued(s, sel, it) && PosName(s, it.node) <= PosName(s, y)
    decreases |PosName(s, y)|
  {
    if Opened(s, sel, y) {
      assert Selected(s, sel, y);
      it := ItemOf(s, y);
    } else {
      assert Hangs(s, y.nodeId);
      it := LeftOut(s, sel, queue, EndPos(s, s.parent[y.nodeId]));
    }
  }

  // On the way to q, past where it leaves p, lies something no heavier than p
  ghost predicate Yields(log: seq<Entry>, p: Path, q: Path) {
    exists k :: 0 <= k <= |q| && !(q[..k] <= p) && SumUnder(log, p) >= SumUnder(log, q[..k])
  }

  // Whatever a picked path passes over yields to it
  ghost predicate Greedy(log: seq<Entry>, picked: set<Path>) {
    forall p, q :: p in picked && q in Prefixes(log) && q !in picked && !(p <= q) ==> Yields(log, p, q)
  }

  lemma Weighs(s: Shape, log: seq<Entry>, x: NodeOnPath)
    requires Kept(s, log) && IsPos(s, x)
    ensures s.nodes[x.nodeId].total == SumUnder(log, PosName(s, x))
  {
    if x.nodeId > 0 {
      PrefixOfPos(s, log, x);
    } else {
      assert CountOk(s, log, 0, 0, 0);
    }
  }

  // An item that leaves the queue first passes over q only if q yields to it
  lemma FirstPassesOver(s: Shape, log: seq<Entry>, sel: set<NodeOnPath>, queue: set<QueueItem>, it: QueueItem, q: Path)
    requires Kept(s, log) && Closed(s, sel) && Frontier(s, sel, queue)
    requires it in queue && Queued(s, sel, it) && forall o :: o in queue ==> Before(it, o)
    requires q in Prefixes(log) && !Picked(s, sel, q) && !(PosName(s, it.node) <= q)
    ensures Yields(log, PosName(s, it.node), q)
  {
    var p := PosName(s, it.node);
    var y := PosOfPrefix(s, log, q);
    var o := LeftOut(s, sel, queue, y);
    var r := PosName(s, o.node);
    if r <= p {
      SelectClosed(s, sel, queue, it);
      assert Picked(s, sel + {it.node}, p);
      PickedPrefix(s, sel + {it.node}, p, r);
      var z :| z in sel + {it.node} && IsPos(s, z) && PosName(s, z) == r;
      PosUnique(s, z, o.node);
      assert false;
    }
    Weighs(s, log, it.node);
    Weighs(s, log, o.node);
    assert Before(it, o) && r == q[..|r|];
  }

  lemma SelectGreedy(s: Shape, log: seq<Entry>, sel: set<NodeOnPath>, queue: set<QueueItem>, it: QueueItem)
    requires Kept(s, log) && Closed(s, sel) && Frontier(s, sel, queue) && Greedy(log, NamesOf(s, sel))
    requires it in queue && Queued(s, sel, it) && forall o :: o in queue ==> Before(it, o)
    ensures Greedy(log, NamesOf(s, sel + {it.node}))
  {
    var names, wider := NamesOf(s, sel), NamesOf(s, sel + {it.node});
    assert wider == names + {PosName(s, it.node)};
    forall p, q | p in wider && q in Prefixes(log) && q !in wider && !(p <= q) ensures Yields(log, p, q) {
      if p !in names {
        assert !Picked(s, sel, q);
        FirstPassesOver(s, log, sel, queue, it, q);
      }
    }
  }

  // ----- what greedy means for the paths

  // A picked path weighs at least as much as each alternative it passes over:
  // a path left out whose parent lies on the way to it
  ghost predicate Chosen(log: seq<Entry>, picked: set<Path>) {
    forall p, q :: p in picked && q in Prefixes(log) && q !in picked && q != [] && Proper(Up(q), p) ==>
      SumUnder(log, p) >= SumUnder(log, q)
  }

  // Nothing left out is heavier than anything picked
  ghost predicate Best(log: seq<Entry>, picked: set<Path>) {
    forall p, q :: p in picked && q in Prefixes(log) && q !in picked ==> SumUnder(log, p) >= SumUnder(log, q)
  }

  lemma YieldingSibling(log: seq<Entry>, p: Path, q: Path)
    requires q != [] && Proper(Up(q), p) && Yields(log, p, q)
    ensures SumUnder(log, p) >= SumUnder(log, q)
  {
    var k :| 0 <= k <= |q| && !(q[..k] <= p) && SumUnder(log, p) >= SumUnder(log, q[..k]);
    if k < |q| {
      assert false;
    }
    assert q[..k] == q;
  }

  lemma YieldingIsLighter(log: seq<Entry>, p: Path, q: Path)
    requires Nonnegative(log) && (p <= q || Yields(log, p, q))
    ensures SumUnder(log, p) >= SumUnder(log, q)
  {
    if p <= q {
      SumShrinks(log, p, q);
    } else {
      var k :| 0 <= k <= |q| && !(q[..k] <= p) && SumUnder(log, p) >= SumUnder(log, q[..k]);
      SumShrinks(log, q[..k], q);
    }
  }

  // With values of any sign each choice on the way down was right
  lemma GreedyIsChosen(log: seq<Entry>, picked: set<Path>)
    requires Greedy(log, picked)
    ensures Chosen(log, picked)
  {
    forall p, q | p in picked && q in Prefixes(log) && q !in picked && q != [] && Proper(Up(q), p)
      ensures SumUnder(log, p) >= SumUnder(log, q)
    {
      assert p <= q ==> p == q;
      YieldingSibling(log, p, q);
    }
  }

  // With nonnegative values the selection is globally best
  lemma GreedyIsBest(log: seq<Entry>, picked: set<Path>)
    requires Nonnegative(log) && Greedy(log, picked)
    ensures Best(log, picked)
  {
    forall p, q | p in picked && q in Prefixes(log) && q !in picked ensures SumUnder(log, p) >= SumUnder(log, q) {
      YieldingIsLighter(log, p, q);
    }
  }
}
