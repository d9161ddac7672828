/**
 Sums over a tree whose nodes are numbered so that parents come before their
 children. `par[i]` is the parent of node i; node 0 is the root.

 The call graph keeps only a local law: a node's total is its own value plus
 the totals of its children. The lemmas here turn it into global statements
 about subtrees and about paths, by folding the last node into its parent.
 */
module TreeSums {
  import opened Groups

  ghost predicate Ordered(par: seq<nat>) {
    |par| > 0 && forall i :: 0 < i < |par| ==> par[i] < i
  }

  ghost function ChildTerms<T>(g: Group<T>, par: seq<nat>, tot: seq<T>, i: nat): (r: seq<T>)
    requires |par| == |tot|
    ensures |r| == |par|
    ensures forall j :: 0 <= j < |par| ==> r[j] == if j > 0 && par[j] == i then tot[j] else g.zero
  {
    seq(|par|, j requires 0 <= j < |par| => if j > 0 && par[j] == i then tot[j] else g.zero)
  }

  ghost predicate LocalAt<T>(g: Group<T>, par: seq<nat>, own: seq<T>, tot: seq<T>, i: nat)
    requires |par| == |own| == |tot| && i < |par|
  {
    tot[i] == g.add(own[i], Sum(g, ChildTerms(g, par, tot, i)))
  }

  ghost predicate Local<T>(g: Group<T>, par: seq<nat>, own: seq<T>, tot: seq<T>) {
    && |par| == |own| == |tot|
    && forall i :: 0 <= i < |par| ==> LocalAt(g, par, own, tot, i)
  }

  // i is j or an ancestor of j
  ghost predicate Within(par: seq<nat>, i: nat, j: nat)
    requires Ordered(par) && j < |par|
    decreases j
  {
    i == j || (j > 0 && Within(par, i, par[j]))
  }

  ghost function SubtreeTerms<T>(g: Group<T>, par: seq<nat>, own: seq<T>, i: nat): (r: seq<T>)
    requires Ordered(par) && |par| == |own|
    ensures |r| == |par|
    ensures forall j :: 0 <= j < |par| ==> r[j] == if Within(par, i, j) then own[j] else g.zero
  {
    seq(|par|, j requires 0 <= j < |par| => if Within(par, i, j) then own[j] else g.zero)
  }

  // The terms of own for which the flag is set
  ghost function Chosen<T>(g: Group<T>, own: seq<T>, flags: seq<bool>): (r: seq<T>)
    requires |own| == |flags|
    ensures |r| == |own|
    ensures forall j :: 0 <= j < |own| ==> r[j] == if flags[j] then own[j] else g.zero
  {
    seq(|own|, j requires 0 <= j < |own| => if flags[j] then own[j] else g.zero)
  }

  // ----- folding the last node into its parent

  ghost function Folded<T>(g: Group<T>, par: seq<nat>, own: seq<T>, tot: seq<T>): (r: seq<T>)
    requires Ordered(par) && |par| == |own| == |tot| && |par| > 1
  {
    var last := |par| - 1;
    own[..last][par[last] := g.add(own[par[last]], tot[last])]
  }

  // The last node has no children
  lemma LastIsLeaf<T(!new)>(g: Group<T>, par: seq<nat>, own: seq<T>, tot: seq<T>)
    requires Lawful(g) && Ordered(par) && Local(g, par, own, tot)
    ensures tot[|par| - 1] == own[|par| - 1]
  {
    var last := |par| - 1;
    assert LocalAt(g, par, own, tot, last);
    SumZeros(g, ChildTerms(g, par, tot, last));
    Zero(g, own[last]);
  }

  lemma FoldKeepsLocal<T(!new)>(g: Group<T>, par: seq<nat>, own: seq<T>, tot: seq<T>)
    requires Lawful(g) && Ordered(par) && Local(g, par, own, tot) && |par| > 1
    ensures var n := |par| - 1;
      Ordered(par[..n]) && Local(g, par[..n], Folded(g, par, own, tot), tot[..n])
  {
    var n := |par| - 1;
    var par', own', tot' := par[..n], Folded(g, par, own, tot), tot[..n];
    forall i | 0 <= i < n ensures LocalAt(g, par', own', tot', i) {
      assert LocalAt(g, par, own, tot, i);
      var c, c' := ChildTerms(g, par, tot, i), ChildTerms(g, par', tot', i);
      assert c == c' + [c[n]];
      SumPush(g, c', c[n]);
      if par[n] == i {
        Comm(g, Sum(g, c'), tot[n]);
        Assoc(g, own[i], tot[n], Sum(g, c'));
      } else {
        Zero(g, Sum(g, c'));
      }
    }
  }

  lemma {:induction false} WithinPrefix(par: seq<nat>, i: nat, j: nat, n: nat)
    requires Ordered(par) && j < n <= |par|
    ensures Ordered(par[..n]) && Within(par[..n], i, j) == Within(par, i, j)
    decreases j
  {
    if i != j && j > 0 {
      WithinPrefix(par, i, par[j], n);
    }
  }

  lemma {:induction false} AncestorsAreEarlier(par: seq<nat>, i: nat, j: nat)
    requires Ordered(par) && j < |par| && Within(par, i, j)
    ensures i <= j
    decreases j
  {
    if i != j {
      AncestorsAreEarlier(par, i, par[j]);
    }
  }

  // Every node is in the subtree of the root
  lemma {:induction false} RootHasAll(par: seq<nat>, j: nat)
    requires Ordered(par) && j < |par|
    ensures Within(par, 0, j)
    decreases j
  {
    if j > 0 {
      RootHasAll(par, par[j]);
    }
  }

  lemma FoldSubtree<T(!new)>(g: Group<T>, par: seq<nat>, own: seq<T>, tot: seq<T>, i: nat)
    requires Lawful(g) && Ordered(par) && |par| == |own| == |tot| && i < |par| - 1
    requires Ordered(par[..|par| - 1]) && tot[|par| - 1] == own[|par| - 1]
    ensures var n := |par| - 1;
      var terms := SubtreeTerms(g, par, own, i);
      Sum(g, SubtreeTerms(g, par[..n], Folded(g, par, own, tot), i)) == g.add(Sum(g, terms[..n]), terms[n])
  {
    var n := |par| - 1;
    var terms := SubtreeTerms(g, par, own, i);
    var folded := SubtreeTerms(g, par[..n], Folded(g, par, own, tot), i);
    forall j | 0 <= j < n ensures Within(par[..n], i, j) == Within(par, i, j) {
      WithinPrefix(par, i, j, n);
    }
    if Within(par, i, n) {
      SumAdd(g, terms[..n], folded, par[n], own[n]);
    } else {
      assert folded == terms[..n];
      Zero(g, Sum(g, folded));
    }
  }

  // A total is the sum of the own values of the whole subtree
  lemma {:induction false} SubtreeSum<T(!new)>(g: Group<T>, par: seq<nat>, own: seq<T>, tot: seq<T>, i: nat)
    requires Lawful(g) && Ordered(par) && Local(g, par, own, tot) && i < |par|
    ensures tot[i] == Sum(g, SubtreeTerms(g, par, own, i))
    decreases |par|
  {
    var n := |par| - 1;
    var terms := SubtreeTerms(g, par, own, i);
    LastIsLeaf(g, par, own, tot);
    assert terms == terms[..n] + [terms[n]];
    SumPush(g, terms[..n], terms[n]);
    if i == n {
      forall j | 0 <= j < n ensures terms[j] == g.zero {
        if Within(par, i, j) { AncestorsAreEarlier(par, i, j); }
      }
      SumZeros(g, terms[..n]);
      Zero(g, own[n]);
    } else {
      FoldKeepsLocal(g, par, own, tot);
      SubtreeSum(g, par[..n], Folded(g, par, own, tot), tot[..n], i);
      FoldSubtree(g, par, own, tot, i);
    }
  }

  // ----- sums along paths

  // `has[j]` says that the path to j contains some frame, `head[j]` that j is its first node on the path
  ghost predicate Heads(par: seq<nat>, has: seq<bool>, head: seq<bool>) {
    && Ordered(par)
    && |par| == |has| == |head|
    && has[0] == head[0]
    && forall j :: 0 < j < |par| ==> has[j] == (has[par[j]] || head[j]) && !(has[par[j]] && head[j])
  }

  // The totals of the first nodes add up to the own values of all nodes whose path contains the frame
  lemma {:induction false} HeadSum<T(!new)>(g: Group<T>, par: seq<nat>, own: seq<T>, tot: seq<T>, has: seq<bool>,
                                            head: seq<bool>)
    requires Lawful(g) && Heads(par, has, head) && Local(g, par, own, tot)
    ensures Sum(g, Chosen(g, tot, head)) == Sum(g, Chosen(g, own, has))
    decreases |par|
  {
    var n := |par| - 1;
    LastIsLeaf(g, par, own, tot);
    var a, b := Chosen(g, tot, head), Chosen(g, own, has);
    assert a == a[..n] + [a[n]] && b == b[..n] + [b[n]];
    SumPush(g, a[..n], a[n]);
    SumPush(g, b[..n], b[n]);
    if n > 0 {
      FoldKeepsLocal(g, par, own, tot);
      var own' := Folded(g, par, own, tot);
      HeadSum(g, par[..n], own', tot[..n], has[..n], head[..n]);
      assert Chosen(g, tot[..n], head[..n]) == a[..n];
      var b' := Chosen(g, own', has[..n]);
      if has[par[n]] {
        SumAdd(g, b[..n], b', par[n], own[n]);
        Zero(g, Sum(g, a[..n]));
      } else {
        assert b' == b[..n];
      }
    }
  }
}
