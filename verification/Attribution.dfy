/**
 Which path every difference was posted under, and which paths were interned.
 Together they determine the whole call graph: its nodes up to their numbers,
 every own value and total, and every frame's aggregate.
 */
module Attribution {
  import opened Groups
  import opened TreeSums
  import opened CallTree
  import opened CallGraph
  import opened CallTheorems
  import opened RootFrame

  datatype Post<T> = Post(path: seq<Frame>, diff: T)

  // Sets of paths: one path, a path with all its extensions, the paths with a frame, the paths that a frame ends,
  // and those that it ends without being on them before
  datatype Region =
    | At(path: seq<Frame>)
    | Under(path: seq<Frame>)
    | Through(frame: Frame)
    | Ending(frame: Frame)
    | EndingIn(frame: Frame)

  predicate In(r: Region, p: seq<Frame>) {
    match r
    case At(path) => p == path
    case Under(path) => path <= p
    case Through(frame) => frame in p
    case Ending(frame) => p != [] && p[|p| - 1] == frame
    case EndingIn(frame) => p != [] && p[|p| - 1] == frame && frame !in p[..|p| - 1]
  }

  // The sum of all differences posted in a region
  ghost function PostedIn<T>(g: Group<T>, posts: seq<Post<T>>, r: Region): (sum: T) {
    if posts == [] then g.zero
    else
      var p := posts[|posts| - 1];
      g.add(PostedIn(g, posts[..|posts| - 1], r), if In(r, p.path) then p.diff else g.zero)
  }

  lemma {:induction false} NothingPosted<T(!new)>(g: Group<T>, posts: seq<Post<T>>, r: Region)
    requires Lawful(g) && forall j :: 0 <= j < |posts| ==> !In(r, posts[j].path)
    ensures PostedIn(g, posts, r) == g.zero
  {
    if posts != [] {
      NothingPosted(g, posts[..|posts| - 1], r);
      Zero(g, g.zero);
    }
  }

  lemma {:induction false} SamePosted<T(!new)>(g: Group<T>, posts: seq<Post<T>>, a: Region, b: Region)
    requires forall j :: 0 <= j < |posts| ==> In(a, posts[j].path) == In(b, posts[j].path)
    ensures PostedIn(g, posts, a) == PostedIn(g, posts, b)
  {
    if posts != [] {
      SamePosted(g, posts[..|posts| - 1], a, b);
    }
  }

  lemma PostedNext<T(!new)>(g: Group<T>, posts: seq<Post<T>>, p: Post<T>, r: Region)
    requires Lawful(g)
    ensures PostedIn(g, posts + [p], r)
      == if In(r, p.path) then g.add(PostedIn(g, posts, r), p.diff) else PostedIn(g, posts, r)
  {
    assert (posts + [p])[..|posts|] == posts;
    Zero(g, PostedIn(g, posts, r));
  }

  // ----- the nodes of the posts

  // leaves[j] is the node of the j-th post
  ghost predicate Placed<T>(nodes: seq<GraphNode<T>>, edges: map<Edge, nat>, posts: seq<Post<T>>, leaves: seq<nat>)
    requires Shaped(nodes, edges)
  {
    && |leaves| == |posts|
    && forall j {:trigger leaves[j]} :: 0 <= j < |posts| ==>
         leaves[j] < |nodes| && Trace(nodes, edges, leaves[j]) == posts[j].path
  }

  ghost predicate HoldsAt<T>(g: Group<T>, nodes: seq<GraphNode<T>>, edges: map<Edge, nat>, posted: seq<T>,
                             posts: seq<Post<T>>, i: nat)
    requires Shaped(nodes, edges) && i < |nodes| == |posted|
  {
    posted[i] == PostedIn(g, posts, At(Trace(nodes, edges, i)))
  }

  ghost predicate Attributed<T>(g: Group<T>, nodes: seq<GraphNode<T>>, edges: map<Edge, nat>, posted: seq<T>,
                                posts: seq<Post<T>>, leaves: seq<nat>)
    requires Shaped(nodes, edges)
  {
    && |posted| == |nodes| && Placed(nodes, edges, posts, leaves)
    && forall i {:trigger HoldsAt(g, nodes, edges, posted, posts, i)} :: 0 <= i < |nodes| ==>
         HoldsAt(g, nodes, edges, posted, posts, i)
  }

  // A node behind the old ones has a path of its own, under which nothing was posted
  lemma NewNodeIsEmpty<T(!new)>(g: Group<T>, nodes: seq<GraphNode<T>>, edges: map<Edge, nat>, posts: seq<Post<T>>,
                                leaves: seq<nat>, n: nat, i: nat)
    requires Lawful(g) && Shaped(nodes, edges) && Placed(nodes, edges, posts, leaves) && n <= i < |nodes|
    requires forall j :: 0 <= j < |leaves| ==> leaves[j] < n
    ensures PostedIn(g, posts, At(Trace(nodes, edges, i))) == g.zero
  {
    forall j | 0 <= j < |posts| ensures posts[j].path != Trace(nodes, edges, i) {
      assert leaves[j] < n;
      if posts[j].path == Trace(nodes, edges, i) {
        TraceUnique(nodes, edges, leaves[j], i);
        assert false;
      }
    }
    NothingPosted(g, posts, At(Trace(nodes, edges, i)));
  }

  lemma PlacedGrows<T(!new)>(a: seq<GraphNode<T>>, ea: map<Edge, nat>, b: seq<GraphNode<T>>, eb: map<Edge, nat>,
                             posts: seq<Post<T>>, leaves: seq<nat>)
    requires Shaped(a, ea) && Shaped(b, eb) && Extends(a, b) && Placed(a, ea, posts, leaves)
    ensures Placed(b, eb, posts, leaves) && forall j :: 0 <= j < |leaves| ==> leaves[j] < |a|
  {
    forall j {:trigger leaves[j]} | 0 <= j < |posts|
      ensures leaves[j] < |a| && Trace(b, eb, leaves[j]) == posts[j].path
    {
      TraceGrows(a, ea, b, eb, leaves[j]);
    }
  }

  lemma AttributionGrows<T(!new)>(g: Group<T>, a: seq<GraphNode<T>>, ea: map<Edge, nat>, pa: seq<T>,
                                  b: seq<GraphNode<T>>, eb: map<Edge, nat>, pb: seq<T>,
                                  posts: seq<Post<T>>, leaves: seq<nat>)
    requires Lawful(g) && Shaped(a, ea) && Shaped(b, eb) && Extends(a, b) && pb == pa + Zeros(g, |b| - |a|)
    requires Attributed(g, a, ea, pa, posts, leaves)
    ensures Attributed(g, b, eb, pb, posts, leaves)
  {
    PlacedGrows(a, ea, b, eb, posts, leaves);
    forall i | 0 <= i < |b| ensures HoldsAt(g, b, eb, pb, posts, i) {
      if i < |a| {
        assert HoldsAt(g, a, ea, pa, posts, i);
        TraceGrows(a, ea, b, eb, i);
      } else {
        NewNodeIsEmpty(g, b, eb, posts, leaves, |a|, i);
      }
    }
  }

  lemma AttributionKept<T(!new)>(g: Group<T>, a: seq<GraphNode<T>>, b: seq<GraphNode<T>>, edges: map<Edge, nat>,
                                 posted: seq<T>, posts: seq<Post<T>>, leaves: seq<nat>)
    requires Shaped(a, edges) && SameShape(a, b) && Attributed(g, a, edges, posted, posts, leaves)
    ensures Shaped(b, edges) && Attributed(g, b, edges, posted, posts, leaves)
  {
    ShapeKept(a, b, edges);
    forall i | 0 <= i < |b| ensures HoldsAt(g, b, edges, posted, posts, i) {
      assert HoldsAt(g, a, edges, posted, posts, i);
    }
  }

  lemma AttributionPosts<T(!new)>(g: Group<T>, nodes: seq<GraphNode<T>>, edges: map<Edge, nat>, posted: seq<T>,
                                  posts: seq<Post<T>>, leaves: seq<nat>, leaf: nat, path: seq<Frame>, diff: T)
    requires Lawful(g) && Shaped(nodes, edges) && Attributed(g, nodes, edges, posted, posts, leaves)
    requires leaf < |nodes| && path == Trace(nodes, edges, leaf)
    ensures Attributed(g, nodes, edges, posted[leaf := g.add(posted[leaf], diff)],
                       posts + [Post(path, diff)], leaves + [leaf])
  {
    var now := posted[leaf := g.add(posted[leaf], diff)];
    forall i | 0 <= i < |nodes| ensures HoldsAt(g, nodes, edges, now, posts + [Post(path, diff)], i) {
      assert HoldsAt(g, nodes, edges, posted, posts, i);
      PostedNext(g, posts, Post(path, diff), At(Trace(nodes, edges, i)));
      if Trace(nodes, edges, i) == path {
        TraceUnique(nodes, edges, i, leaf);
      }
    }
  }

  // ----- sums over nodes are sums over posts

  // What was posted to each node by these posts
  ghost function Shares<T>(g: Group<T>, nodes: seq<GraphNode<T>>, edges: map<Edge, nat>,
                           posts: seq<Post<T>>): (r: seq<T>)
    requires Shaped(nodes, edges)
    ensures |r| == |nodes| && forall i :: 0 <= i < |nodes| ==> r[i] == PostedIn(g, posts, At(Trace(nodes, edges, i)))
  {
    seq(|nodes|, i requires 0 <= i < |nodes| => PostedIn(g, posts, At(Trace(nodes, edges, i))))
  }

  ghost predicate Flags<T>(nodes: seq<GraphNode<T>>, edges: map<Edge, nat>, flags: seq<bool>, r: Region)
    requires Shaped(nodes, edges)
  {
    |flags| == |nodes| && forall i {:trigger flags[i]} :: 0 <= i < |nodes| ==> flags[i] == In(r, Trace(nodes, edges, i))
  }

  lemma ShareStep<T(!new)>(g: Group<T>, nodes: seq<GraphNode<T>>, edges: map<Edge, nat>, posts: seq<Post<T>>,
                           p: Post<T>,
                           leaf: nat, flags: seq<bool>, r: Region)
    requires Lawful(g) && Shaped(nodes, edges) && Flags(nodes, edges, flags, r)
    requires leaf < |nodes| && Trace(nodes, edges, leaf) == p.path
    ensures Sum(g, Chosen(g, Shares(g, nodes, edges, posts + [p]), flags))
      == g.add(Sum(g, Chosen(g, Shares(g, nodes, edges, posts), flags)), if In(r, p.path) then p.diff else g.zero)
  {
    var a := Chosen(g, Shares(g, nodes, edges, posts), flags);
    var b := Chosen(g, Shares(g, nodes, edges, posts + [p]), flags);
    forall i | 0 <= i < |nodes|
      ensures b[i] == if i == leaf && In(r, p.path) then g.add(a[i], p.diff) else a[i]
    {
      PostedNext(g, posts, p, At(Trace(nodes, edges, i)));
      if Trace(nodes, edges, i) == p.path {
        TraceUnique(nodes, edges, i, leaf);
      }
    }
    if In(r, p.path) {
      SumAdd(g, a, b, leaf, p.diff);
    } else {
      assert a == b;
      Zero(g, Sum(g, a));
    }
  }

  lemma PlacedBefore<T(!new)>(nodes: seq<GraphNode<T>>, edges: map<Edge, nat>, posts: seq<Post<T>>, leaves: seq<nat>)
    requires Shaped(nodes, edges) && Placed(nodes, edges, posts, leaves) && posts != []
    ensures Placed(nodes, edges, posts[..|posts| - 1], leaves[..|posts| - 1])
    ensures leaves[|posts| - 1] < |nodes|
    ensures Trace(nodes, edges, leaves[|posts| - 1]) == posts[|posts| - 1].path
  {
    var n := |posts| - 1;
    forall j {:trigger leaves[..n][j]} | 0 <= j < n
      ensures leaves[..n][j] < |nodes| && Trace(nodes, edges, leaves[..n][j]) == posts[..n][j].path
    {
      assert leaves[j] < |nodes|;
    }
  }

  // Summing the shares of the nodes in a region sums the posts in the region
  lemma {:induction false} RegionSum<T(!new)>(g: Group<T>, nodes: seq<GraphNode<T>>, edges: map<Edge, nat>,
                                              posts: seq<Post<T>>,
                                              leaves: seq<nat>, flags: seq<bool>, r: Region)
    requires Lawful(g) && Shaped(nodes, edges) && Placed(nodes, edges, posts, leaves) && Flags(nodes, edges, flags, r)
    ensures Sum(g, Chosen(g, Shares(g, nodes, edges, posts), flags)) == PostedIn(g, posts, r)
    decreases |posts|
  {
    if posts == [] {
      SumZeros(g, Chosen(g, Shares(g, nodes, edges, posts), flags));
    } else {
      var n := |posts| - 1;
      var before, p := posts[..n], posts[n];
      assert posts == before + [p];
      PlacedBefore(nodes, edges, posts, leaves);
      RegionSum(g, nodes, edges, before, leaves[..n], flags, r);
      ShareStep(g, nodes, edges, before, p, leaves[n], flags, r);
    }
  }

  lemma ShorterPrefix(a: seq<Frame>, p: seq<Frame>, key: Frame)
    requires a != p + [key]
    ensures a <= p + [key] <==> a <= p
  {
    if a <= p + [key] {
      assert |a| < |p + [key]|;
      assert a == (p + [key])[..|a|] == p[..|a|];
    }
  }

  // Being in a subtree is extending its trace
  lemma {:induction false} WithinIsPrefix<T(!new)>(nodes: seq<GraphNode<T>>, edges: map<Edge, nat>, i: nat, j: nat)
    requires Shaped(nodes, edges) && Ordered(Par(nodes)) && i < |nodes| && j < |nodes|
    ensures Within(Par(nodes), i, j) <==> Trace(nodes, edges, i) <= Trace(nodes, edges, j)
    decreases j
  {
    var a, b := Trace(nodes, edges, i), Trace(nodes, edges, j);
    if a == b {
      TraceUnique(nodes, edges, i, j);
    } else if j > 0 {
      assert NodeOk(nodes, edges, j);
      WithinIsPrefix(nodes, edges, i, nodes[j].parent);
      ShorterPrefix(a, Trace(nodes, edges, nodes[j].parent), nodes[j].key);
    }
  }

  // The books of a graph with nothing pending, and where everything was posted
  ghost predicate Traced<T(!new)>(g: Group<T>, nodes: seq<GraphNode<T>>, edges: map<Edge, nat>,
                                  frames: map<Frame, Aggregate<T>>, posted: seq<T>,
                                  posts: seq<Post<T>>, leaves: seq<nat>) {
    && Settled(g, nodes, edges, frames, posted, Zeros(g, |nodes|))
    && Attributed(g, nodes, edges, posted, posts, leaves)
  }

  lemma OwnsAreShares<T(!new)>(g: Group<T>, nodes: seq<GraphNode<T>>, edges: map<Edge, nat>,
                               frames: map<Frame, Aggregate<T>>, posted: seq<T>, posts: seq<Post<T>>, leaves: seq<nat>)
    requires Traced(g, nodes, edges, frames, posted, posts, leaves)
    ensures Owns(g, nodes) == Shares(g, nodes, edges, posts)
  {
    OwnIsPosted(g, nodes, edges, frames, posted);
    forall i | 0 <= i < |nodes| ensures posted[i] == Shares(g, nodes, edges, posts)[i] {
      assert HoldsAt(g, nodes, edges, posted, posts, i);
    }
  }

  // A node's total is the sum of everything posted under its trace and the traces that extend it
  lemma TotalIsPosts<T(!new)>(g: Group<T>, nodes: seq<GraphNode<T>>, edges: map<Edge, nat>,
                              frames: map<Frame, Aggregate<T>>, posted: seq<T>,
                              posts: seq<Post<T>>, leaves: seq<nat>, i: nat)
    requires Traced(g, nodes, edges, frames, posted, posts, leaves) && i < |nodes|
    ensures nodes[i].agg.total == PostedIn(g, posts, Under(Trace(nodes, edges, i)))
  {
    OwnsAreShares(g, nodes, edges, frames, posted, posts, leaves);
    TotalIsSubtreeSum(g, nodes, edges, frames, posted, Zeros(g, |nodes|), i);
    var own, r := Owns(g, nodes), Under(Trace(nodes, edges, i));
    var flags := seq(|nodes|, j requires 0 <= j < |nodes| => In(r, Trace(nodes, edges, j)));
    forall j | 0 <= j < |nodes| ensures SubtreeTerms(g, Par(nodes), own, i)[j] == Chosen(g, own, flags)[j] {
      WithinIsPrefix(nodes, edges, i, j);
    }
    assert SubtreeTerms(g, Par(nodes), own, i) == Chosen(g, own, flags);
    RegionSum(g, nodes, edges, posts, leaves, flags, r);
  }

  // What a frame's total is made of, given a sum for every region: the root's frame also counts the root
  ghost function TotalBy<T>(g: Group<T>, f: Frame, sum: Region -> T): (r: T) {
    if f == ROOT_FRAME then g.add(sum(Through(f)), sum(Under([]))) else sum(Through(f))
  }

  ghost function OwnBy<T>(g: Group<T>, f: Frame, sum: Region -> T): (r: T) {
    if f == ROOT_FRAME then g.add(sum(EndingIn(f)), sum(At([]))) else sum(EndingIn(f))
  }

  lemma ByAdds<T(!new)>(g: Group<T>, f: Frame, x: Region -> T, y: Region -> T, z: Region -> T)
    requires Lawful(g) && forall r :: z(r) == g.add(x(r), y(r))
    ensures TotalBy(g, f, z) == g.add(TotalBy(g, f, x), TotalBy(g, f, y))
    ensures OwnBy(g, f, z) == g.add(OwnBy(g, f, x), OwnBy(g, f, y))
  {
    Swap(g, x(Through(f)), y(Through(f)), x(Under([])), y(Under([])));
    Swap(g, x(EndingIn(f)), y(EndingIn(f)), x(At([])), y(At([])));
  }

  // The sums of the posts
  ghost function PostSum<T>(g: Group<T>, posts: seq<Post<T>>): (sum: Region -> T) {
    (r: Region) => PostedIn(g, posts, r)
  }

  // A frame's total is the sum of everything posted under paths that contain it
  lemma FrameTotalIsPosts<T(!new)>(g: Group<T>, nodes: seq<GraphNode<T>>, edges: map<Edge, nat>,
                                   frames: map<Frame, Aggregate<T>>, posted: seq<T>,
                                   posts: seq<Post<T>>, leaves: seq<nat>, f: Frame)
    requires Traced(g, nodes, edges, frames, posted, posts, leaves)
    ensures FrameTotal(g, frames, f) == TotalBy(g, f, PostSum(g, posts))
  {
    var zeros := Zeros(g, |nodes|);
    OwnsAreShares(g, nodes, edges, frames, posted, posts, leaves);
    RegionSum(g, nodes, edges, posts, leaves, OnTrace(nodes, edges, f), Through(f));
    if f == ROOT_FRAME {
      RootFrameExcess(g, nodes, edges, frames, posted, zeros);
      TotalIsPosts(g, nodes, edges, frames, posted, posts, leaves, 0);
    } else {
      FrameTotalIsPathSum(g, nodes, edges, frames, posted, zeros, f);
      assert OnPath(nodes, edges, f) == OnTrace(nodes, edges, f);
    }
  }

  lemma HeadFlagsAre<T(!new)>(nodes: seq<GraphNode<T>>, edges: map<Edge, nat>, f: Frame)
    requires Shaped(nodes, edges) && Firsts(nodes, edges)
    ensures Flags(nodes, edges, HeadFlags(nodes, f)[0 := false], EndingIn(f))
  {
    var flags := HeadFlags(nodes, f)[0 := false];
    forall i {:trigger flags[i]} | 0 <= i < |nodes| ensures flags[i] == In(EndingIn(f), Trace(nodes, edges, i)) {
      if i > 0 {
        assert NodeOk(nodes, edges, i) && FirstOk(nodes, edges, i);
        var outer := Trace(nodes, edges, nodes[i].parent);
        assert (outer + [nodes[i].key])[..|outer|] == outer;
      }
    }
  }

  // A frame's own value is the sum of everything posted under paths that end with it and do not contain it before
  lemma FrameOwnIsPosts<T(!new)>(g: Group<T>, nodes: seq<GraphNode<T>>, edges: map<Edge, nat>,
                                 frames: map<Frame, Aggregate<T>>, posted: seq<T>,
                                 posts: seq<Post<T>>, leaves: seq<nat>, f: Frame)
    requires Traced(g, nodes, edges, frames, posted, posts, leaves)
    ensures FrameOwn(g, frames, f) == OwnBy(g, f, PostSum(g, posts))
  {
    OwnsAreShares(g, nodes, edges, frames, posted, posts, leaves);
    HeadFlagsAre(nodes, edges, f);
    var own, flags := Owns(g, nodes), HeadFlags(nodes, f);
    RegionSum(g, nodes, edges, posts, leaves, flags[0 := false], EndingIn(f));
    assert FrameOk(g, nodes, frames, f);
    if f == ROOT_FRAME {
      Zero(g, own[0]);
      SumAdd(g, Chosen(g, own, flags[0 := false]), Chosen(g, own, flags), 0, own[0]);
    } else {
      assert flags == flags[0 := false];
    }
  }

  // ----- the nodes of the interned paths

  ghost predicate HasTrace<T>(nodes: seq<GraphNode<T>>, edges: map<Edge, nat>, p: seq<Frame>)
    requires Shaped(nodes, edges)
  {
    exists i :: 0 <= i < |nodes| && Trace(nodes, edges, i) == p
  }

  ghost predicate Begins(paths: set<seq<Frame>>, p: seq<Frame>) {
    p == [] || exists q :: q in paths && p <= q
  }

  // A node stands on an interned path, and is marked as a leaf exactly when it ends one
  ghost predicate NodeIn<T>(nodes: seq<GraphNode<T>>, edges: map<Edge, nat>, paths: set<seq<Frame>>, i: nat)
    requires Shaped(nodes, edges) && i < |nodes|
  {
    Begins(paths, Trace(nodes, edges, i)) && (nodes[i].isLeaf <==> Trace(nodes, edges, i) in paths)
  }

  // The nodes are exactly those of the interned paths
  ghost predicate Spanned<T>(nodes: seq<GraphNode<T>>, edges: map<Edge, nat>, paths: set<seq<Frame>>)
    requires Shaped(nodes, edges)
  {
    && (forall i {:trigger NodeIn(nodes, edges, paths, i)} :: 0 <= i < |nodes| ==> NodeIn(nodes, edges, paths, i))
    && (forall p {:trigger HasTrace(nodes, edges, p)} :: p in paths ==> HasTrace(nodes, edges, p))
  }

  lemma HasTraceGrows<T(!new)>(a: seq<GraphNode<T>>, ea: map<Edge, nat>, b: seq<GraphNode<T>>, eb: map<Edge, nat>,
                               p: seq<Frame>)
    requires Shaped(a, ea) && Shaped(b, eb) && Extends(a, b) && HasTrace(a, ea, p)
    ensures HasTrace(b, eb, p)
  {
    var i :| 0 <= i < |a| && Trace(a, ea, i) == p;
    TraceGrows(a, ea, b, eb, i);
  }

  lemma NewNodeIn<T(!new)>(a: seq<GraphNode<T>>, ea: map<Edge, nat>, b: seq<GraphNode<T>>, eb: map<Edge, nat>,
                           paths: set<seq<Frame>>, i: nat)
    requires Shaped(a, ea) && Shaped(b, eb) && Extends(a, b) && Spanned(a, ea, paths) && |a| <= i < |b|
    ensures Trace(b, eb, i) !in paths
  {
    var p := Trace(b, eb, i);
    if p in paths {
      assert HasTrace(a, ea, p);
      var k :| 0 <= k < |a| && Trace(a, ea, k) == p;
      TraceGrows(a, ea, b, eb, k);
      TraceUnique(b, eb, i, k);
      assert false;
    }
  }

  lemma BeginsMore(paths: set<seq<Frame>>, more: seq<Frame>, p: seq<Frame>)
    requires Begins(paths, p)
    ensures Begins(paths + {more}, p)
  {
    if p != [] {
      var q :| q in paths && p <= q;
      assert q in paths + {more};
    }
  }

  lemma SpannedGrows<T(!new)>(g: Group<T>, a: seq<GraphNode<T>>, ea: map<Edge, nat>, pa: seq<T>,
                              b: seq<GraphNode<T>>, eb: map<Edge, nat>, pb: seq<T>, paths: set<seq<Frame>>,
                              id: nat, trace: seq<Frame>)
    requires Shaped(a, ea) && Shaped(b, eb) && Spanned(a, ea, paths) && Interned(g, a, pa, b, pb, id)
    requires Trace(b, eb, id) == trace && Prefixes(b, eb, |a|, trace)
    ensures Spanned(b, eb, paths + {trace})
  {
    forall i | 0 <= i < |b| ensures NodeIn(b, eb, paths + {trace}, i) {
      var p := Trace(b, eb, i);
      if p == trace {
        TraceUnique(b, eb, i, id);
      }
      if i < |a| {
        assert NodeIn(a, ea, paths, i);
        TraceGrows(a, ea, b, eb, i);
        BeginsMore(paths, trace, p);
      } else {
        assert PrefixAt(b, eb, i, trace);
        NewNodeIn(a, ea, b, eb, paths, i);
        assert trace in paths + {trace};
      }
    }
    forall p | p in paths + {trace} ensures HasTrace(b, eb, p) {
      if p in paths {
        HasTraceGrows(a, ea, b, eb, p);
      }
    }
  }

  lemma SpannedKept<T(!new)>(a: seq<GraphNode<T>>, b: seq<GraphNode<T>>, edges: map<Edge, nat>, paths: set<seq<Frame>>)
    requires Shaped(a, edges) && SameShape(a, b) && Spanned(a, edges, paths)
    ensures Shaped(b, edges) && Spanned(b, edges, paths)
  {
    ShapeKept(a, b, edges);
    forall i | 0 <= i < |b| ensures NodeIn(b, edges, paths, i) {
      assert NodeIn(a, edges, paths, i);
    }
    forall p | p in paths ensures HasTrace(b, edges, p) {
      assert HasTrace(a, edges, p);
      var i :| 0 <= i < |a| && Trace(a, edges, i) == p;
      assert Trace(b, edges, i) == p;
    }
  }

  // Every prefix of a trace is a trace
  lemma {:induction false} PrefixHasNode<T(!new)>(nodes: seq<GraphNode<T>>, edges: map<Edge, nat>, k: nat,
                                                  p: seq<Frame>)
    returns (j: nat)
    requires Shaped(nodes, edges) && k < |nodes| && p <= Trace(nodes, edges, k)
    ensures j < |nodes| && Trace(nodes, edges, j) == p
    decreases k
  {
    if p == Trace(nodes, edges, k) {
      j := k;
    } else {
      assert NodeOk(nodes, edges, k);
      ShorterPrefix(p, Trace(nodes, edges, nodes[k].parent), nodes[k].key);
      j := PrefixHasNode(nodes, edges, nodes[k].parent, p);
    }
  }

  // A path has a node exactly when it begins an interned path
  lemma NodeIffBegins<T(!new)>(nodes: seq<GraphNode<T>>, edges: map<Edge, nat>, paths: set<seq<Frame>>, p: seq<Frame>)
    requires Shaped(nodes, edges) && Spanned(nodes, edges, paths)
    ensures HasTrace(nodes, edges, p) <==> Begins(paths, p)
  {
    if HasTrace(nodes, edges, p) {
      var i :| 0 <= i < |nodes| && Trace(nodes, edges, i) == p;
      assert NodeIn(nodes, edges, paths, i);
    }
    if Begins(paths, p) {
      if p == [] {
        assert Trace(nodes, edges, 0) == p;
      } else {
        var q :| q in paths && p <= q;
        assert HasTrace(nodes, edges, q);
        var k :| 0 <= k < |nodes| && Trace(nodes, edges, k) == q;
        var j := PrefixHasNode(nodes, edges, k, p);
      }
    }
  }

  // If no interned path contains the root's frame id, no other node has it
  lemma SpannedIsReserved<T(!new)>(nodes: seq<GraphNode<T>>, edges: map<Edge, nat>, paths: set<seq<Frame>>)
    requires Shaped(nodes, edges) && Spanned(nodes, edges, paths)
    ensures RootFrameReserved(nodes) <==> forall p :: p in paths ==> ROOT_FRAME !in p
  {
    ReservedIff(nodes, edges);
    if RootFrameReserved(nodes) {
      forall p | p in paths ensures ROOT_FRAME !in p {
        assert HasTrace(nodes, edges, p);
        var i :| 0 <= i < |nodes| && Trace(nodes, edges, i) == p;
        assert ROOT_FRAME !in Trace(nodes, edges, i);
      }
    } else {
      var j :| 0 <= j < |nodes| && ROOT_FRAME in Trace(nodes, edges, j);
      assert NodeIn(nodes, edges, paths, j);
      var q :| q in paths && Trace(nodes, edges, j) <= q;
      assert ROOT_FRAME in q;
    }
  }

  // ----- both together

  ghost predicate Recorded<T>(g: Group<T>, nodes: seq<GraphNode<T>>, edges: map<Edge, nat>, posted: seq<T>,
                              posts: seq<Post<T>>, leaves: seq<nat>, paths: set<seq<Frame>>)
    requires Shaped(nodes, edges)
  {
    Attributed(g, nodes, edges, posted, posts, leaves) && Spanned(nodes, edges, paths)
  }

  lemma RecordStarts<T(!new)>(g: Group<T>, nodes: seq<GraphNode<T>>, edges: map<Edge, nat>)
    requires Shaped(nodes, edges) && |nodes| == 1 && !nodes[0].isLeaf
    ensures Recorded(g, nodes, edges, [g.zero], [], [], {})
  {
  }

  lemma RecordGrows<T(!new)>(g: Group<T>, a: seq<GraphNode<T>>, ea: map<Edge, nat>, pa: seq<T>,
                             b: seq<GraphNode<T>>, eb: map<Edge, nat>, pb: seq<T>,
                             posts: seq<Post<T>>, leaves: seq<nat>,
                             paths: set<seq<Frame>>, id: nat, trace: seq<Frame>)
    requires Lawful(g) && Shaped(a, ea) && Shaped(b, eb) && Interned(g, a, pa, b, pb, id)
    requires Trace(b, eb, id) == trace && Prefixes(b, eb, |a|, trace) && Recorded(g, a, ea, pa, posts, leaves, paths)
    ensures Recorded(g, b, eb, pb, posts, leaves, paths + {trace})
  {
    AttributionGrows(g, a, ea, pa, b, eb, pb, posts, leaves);
    SpannedGrows(g, a, ea, pa, b, eb, pb, paths, id, trace);
  }

  lemma RecordKept<T(!new)>(g: Group<T>, a: seq<GraphNode<T>>, b: seq<GraphNode<T>>, edges: map<Edge, nat>,
                            posted: seq<T>, posts: seq<Post<T>>, leaves: seq<nat>, paths: set<seq<Frame>>)
    requires Shaped(a, edges) && SameShape(a, b) && Recorded(g, a, edges, posted, posts, leaves, paths)
    ensures Shaped(b, edges) && Recorded(g, b, edges, posted, posts, leaves, paths)
  {
    AttributionKept(g, a, b, edges, posted, posts, leaves);
    SpannedKept(a, b, edges, paths);
  }

  // ----- two graphs with the same posts and paths

  // Two nodes that say the same
  ghost predicate SameNode<T>(g: Group<T>, a: seq<GraphNode<T>>, ea: map<Edge, nat>, i: nat,
                              b: seq<GraphNode<T>>, eb: map<Edge, nat>, j: nat)
    requires Shaped(a, ea) && Shaped(b, eb) && i < |a| && j < |b|
  {
    && Trace(a, ea, i) == Trace(b, eb, j)
    && a[i].key == b[j].key && a[i].isLeaf == b[j].isLeaf && a[i].first == b[j].first
    && Own(g, a[i].agg) == Own(g, b[j].agg) && a[i].agg.total == b[j].agg.total
  }

  lemma SameMarks<T(!new)>(a: seq<GraphNode<T>>, ea: map<Edge, nat>, i: nat, b: seq<GraphNode<T>>, eb: map<Edge, nat>,
                           j: nat)
    requires Shaped(a, ea) && Firsts(a, ea) && Shaped(b, eb) && Firsts(b, eb) && i < |a| && j < |b|
    requires Trace(a, ea, i) == Trace(b, eb, j)
    ensures a[i].key == b[j].key && a[i].first == b[j].first
  {
    if i > 0 && j > 0 {
      assert NodeOk(a, ea, i) && FirstOk(a, ea, i) && NodeOk(b, eb, j) && FirstOk(b, eb, j);
      var x, y := Trace(a, ea, a[i].parent), Trace(b, eb, b[j].parent);
      assert (x + [a[i].key])[..|x|] == x && (y + [b[j].key])[..|y|] == y;
      assert a[i].key == (x + [a[i].key])[|x|] == b[j].key;
    }
  }

  // Every node of one graph has a node of the other that says the same
  lemma SamePostsSameNodes<T(!new)>(g: Group<T>, posts: seq<Post<T>>, paths: set<seq<Frame>>,
                                    a: seq<GraphNode<T>>, ea: map<Edge, nat>,
                                    fa: map<Frame, Aggregate<T>>, pa: seq<T>, la: seq<nat>,
                                    b: seq<GraphNode<T>>, eb: map<Edge, nat>,
                                    fb: map<Frame, Aggregate<T>>, pb: seq<T>, lb: seq<nat>,
                                    i: nat)
    returns (j: nat)
    requires Traced(g, a, ea, fa, pa, posts, la) && Spanned(a, ea, paths)
    requires Traced(g, b, eb, fb, pb, posts, lb) && Spanned(b, eb, paths) && i < |a|
    ensures j < |b| && SameNode(g, a, ea, i, b, eb, j)
  {
    var p := Trace(a, ea, i);
    NodeIffBegins(a, ea, paths, p);
    NodeIffBegins(b, eb, paths, p);
    j :| 0 <= j < |b| && Trace(b, eb, j) == p;
    assert NodeIn(a, ea, paths, i) && NodeIn(b, eb, paths, j);
    SameMarks(a, ea, i, b, eb, j);
    OwnsAreShares(g, a, ea, fa, pa, posts, la);
    OwnsAreShares(g, b, eb, fb, pb, posts, lb);
    assert Own(g, a[i].agg) == Owns(g, a)[i] && Own(g, b[j].agg) == Owns(g, b)[j];
    TotalIsPosts(g, a, ea, fa, pa, posts, la, i);
    TotalIsPosts(g, b, eb, fb, pb, posts, lb, j);
  }
}
