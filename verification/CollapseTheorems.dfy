/**
  What collapsing means: every form rewrites the trace by replacing a block and its copy by the block
  alone, and the naive form agrees with the other two on all traces exactly at depths 0 and 1.
*/
module CollapseTheorems {

  import opened Collapse

  // ----- rewriting XX to X

  /** v is u with the second of two equal adjacent blocks of at most depth frames cut out. */
  ghost predicate Shortens(u: seq<Frame>, v: seq<Frame>, depth: nat) {
    exists i: nat, s: nat {:trigger Doubled(u, i, s)} :: s <= depth && Doubled(u, i, s) && v == u[..i] + u[i + s..]
  }

  ghost predicate ReachesIn(u: seq<Frame>, v: seq<Frame>, depth: nat, steps: nat)
    decreases steps
  {
    if steps == 0 then u == v
    else exists w {:trigger Shortens(w, v, depth)} :: ReachesIn(u, w, depth, steps - 1) && Shortens(w, v, depth)
  }

  ghost predicate Reaches(u: seq<Frame>, v: seq<Frame>, depth: nat) {
    exists steps: nat :: ReachesIn(u, v, depth, steps)
  }

  lemma Extend(u: seq<Frame>, w: seq<Frame>, v: seq<Frame>, depth: nat)
    requires Reaches(u, w, depth) && Shortens(w, v, depth)
    ensures Reaches(u, v, depth)
  {
    var steps: nat :| ReachesIn(u, w, depth, steps);
    assert ReachesIn(u, v, depth, steps + 1);
  }

  lemma Stay(u: seq<Frame>, depth: nat)
    ensures Reaches(u, u, depth)
  {
    assert ReachesIn(u, u, depth, 0);
  }

  /** Cutting a repeated block out of a + x + x + b. */
  lemma CutBlock(a: seq<Frame>, s: nat, x: seq<Frame>, b: seq<Frame>, depth: nat)
    requires 1 <= s <= |a| && s <= depth && |x| == s && a[|a| - s..] == x
    ensures Shortens(a + x + b, a + b, depth)
  {
    var u := a + x + b;
    assert u[|a| - s..|a|] == x == u[|a|..|a| + s];
    assert Doubled(u, |a|, s);
    assert a + b == u[..|a|] + u[|a| + s..];
  }

  ghost function Frames(d: seq<Frame>): set<Frame> {
    set f | f in d
  }

  lemma ShortensKeeps(u: seq<Frame>, v: seq<Frame>, depth: nat)
    requires Shortens(u, v, depth)
    ensures 0 < |v| < |u| && u[0] == v[0] && Frames(u) == Frames(v)
  {
    var i: nat, s: nat :| s <= depth && Doubled(u, i, s) && v == u[..i] + u[i + s..];
    forall f | f in u ensures f in v {
      var k :| 0 <= k < |u| && u[k] == f;
      if k < i {
        assert v[k] == f;
      } else if k < i + s {
        assert u[i..i + s][k - i] == u[i - s..i][k - i];
        assert v[k - s] == f;
      } else {
        assert v[k - s] == f;
      }
    }
  }

  /** Rewriting keeps the first frame and the set of frames. */
  lemma {:induction false} ReachesKeeps(u: seq<Frame>, v: seq<Frame>, depth: nat, steps: nat)
    requires ReachesIn(u, v, depth, steps)
    ensures Frames(u) == Frames(v) && |v| + steps <= |u| && (|u| > 0 ==> |v| > 0 && u[0] == v[0])
    decreases steps
  {
    if steps > 0 {
      var w :| ReachesIn(u, w, depth, steps - 1) && Shortens(w, v, depth);
      ReachesKeeps(u, w, depth, steps - 1);
      ShortensKeeps(w, v, depth);
    }
  }

  // ----- every form only rewrites

  lemma CutRest(d: seq<Frame>, depth: nat, i: nat, s: nat, next: nat, rest: seq<Frame>)
    requires s <= depth && Doubled(d, i, s) && next == i + s && Reaches(d, d[..next] + rest, depth)
    ensures Reaches(d, d[..i] + rest, depth)
  {
    assert d[..next] == d[..i] + d[i..next];
    assert d[..i][i - s..] == d[i - s..i];
    CutBlock(d[..i], s, d[i..next], rest, depth);
    Extend(d, d[..next] + rest, d[..i] + rest, depth);
  }

  ghost predicate BlockAt(d: seq<Frame>, lens: seq<nat>, depth: nat, i: nat)
    requires i < |lens|
  {
    lens[i] == 0 || (lens[i] <= depth && Doubled(d, i, lens[i]))
  }

  /** Every length that is not 0 is that of a repeated block. */
  ghost predicate Blocks(d: seq<Frame>, lens: seq<nat>, depth: nat) {
    && |lens| == |d|
    && forall i {:trigger BlockAt(d, lens, depth, i)} :: 0 <= i < |lens| ==> BlockAt(d, lens, depth, i)
  }

  lemma LengthsAreBlocks(d: seq<Frame>, depth: nat)
    ensures Blocks(d, Lengths(d, depth), depth)
  {
  }

  lemma KeepRest(d: seq<Frame>, lens: seq<nat>, i: nat, rest: seq<Frame>)
    requires |lens| == |d| && i < |d| && lens[i] == 0 && rest == Kept(d, lens, i + 1)
    ensures d[..i + 1] + rest == d[..i] + Kept(d, lens, i)
  {
    assert d[..i + 1] + rest == d[..i] + ([d[i]] + rest);
  }

  lemma SkipRest(d: seq<Frame>, lens: seq<nat>, i: nat, next: nat)
    requires |lens| == |d| && i < |d| && lens[i] > 0 && next == i + lens[i]
    ensures Kept(d, lens, i) == Kept(d, lens, next)
  {
  }

  lemma {:induction false} KeptReaches(d: seq<Frame>, lens: seq<nat>, depth: nat, i: nat)
    requires Blocks(d, lens, depth) && 1 <= i <= |d|
    ensures Reaches(d, d[..i] + Kept(d, lens, i), depth)
    decreases |d| - i
  {
    if i == |d| {
      assert d[..i] + [] == d;
      Stay(d, depth);
    } else {
      assert BlockAt(d, lens, depth, i);
      if lens[i] == 0 {
        KeptReaches(d, lens, depth, i + 1);
        KeepRest(d, lens, i, Kept(d, lens, i + 1));
      } else {
        var next := i + lens[i];
        KeptReaches(d, lens, depth, next);
        CutRest(d, depth, i, lens[i], next, Kept(d, lens, next));
        SkipRest(d, lens, i, next);
      }
    }
  }

  /** The scalar and the 8-wide form: the result comes from the trace by rewriting. */
  lemma CollapsedReaches(d: seq<Frame>, depth: nat)
    ensures Reaches(d, Collapsed(d, depth), depth)
    ensures Frames(Collapsed(d, depth)) == Frames(d) && |Collapsed(d, depth)| <= |d|
    ensures |d| > 0 ==> |Collapsed(d, depth)| > 0 && Collapsed(d, depth)[0] == d[0]
  {
    if depth == 0 || |d| < 2 {
      Stay(d, depth);
    } else {
      LengthsAreBlocks(d, depth);
      KeptReaches(d, Lengths(d, depth), depth, 1);
      assert d[..1] == [d[0]];
    }
    var steps: nat :| ReachesIn(d, Collapsed(d, depth), depth, steps);
    ReachesKeeps(d, Collapsed(d, depth), depth, steps);
  }

  lemma CutNext(d: seq<Frame>, depth: nat, kept: seq<Frame>, cur: nat, s: nat)
    requires s <= depth && Repeats(kept, d, cur, s) && Reaches(d, kept + d[cur..], depth)
    ensures Reaches(d, kept + d[cur + s..], depth)
  {
    CutBlock(kept, s, d[cur..cur + s], d[cur + s..], depth);
    assert kept + d[cur..] == kept + d[cur..cur + s] + d[cur + s..];
    Extend(d, kept + d[cur..], kept + d[cur + s..], depth);
  }

  lemma {:induction false} NaiveFromReaches(kept: seq<Frame>, d: seq<Frame>, cur: nat, depth: nat)
    requires 1 <= cur <= |d| && Reaches(d, kept + d[cur..], depth)
    ensures Reaches(d, NaiveFrom(kept, d, cur, depth), depth)
    decreases |d| - cur
  {
    if cur == |d| {
      assert kept + d[cur..] == kept;
    } else {
      var s := Shortest(kept, d, cur, 1, depth);
      if s > 0 {
        CutNext(d, depth, kept, cur, s);
        NaiveFromReaches(kept, d, cur + s, depth);
      } else {
        assert kept + d[cur..] == kept + [d[cur]] + d[cur + 1..];
        NaiveFromReaches(kept + [d[cur]], d, cur + 1, depth);
      }
    }
  }

  /** The naive form: the result comes from the trace by rewriting. */
  lemma NaiveReaches(d: seq<Frame>, depth: nat)
    requires |d| > 0
    ensures Reaches(d, NaiveCollapsed(d, depth), depth)
    ensures Frames(NaiveCollapsed(d, depth)) == Frames(d) && 0 < |NaiveCollapsed(d, depth)| <= |d|
    ensures NaiveCollapsed(d, depth)[0] == d[0]
  {
    assert d[..1] + d[1..] == d;
    Stay(d, depth);
    NaiveFromReaches(d[..1], d, 1, depth);
    var steps: nat :| ReachesIn(d, NaiveCollapsed(d, depth), depth, steps);
    ReachesKeeps(d, NaiveCollapsed(d, depth), depth, steps);
  }

  // ----- where the forms agree

  lemma {:induction false} NaiveAtZero(d: seq<Frame>, i: nat)
    requires 1 <= i <= |d|
    ensures NaiveFrom(d[..i], d, i, 0) == d
    decreases |d| - i
  {
    if i == |d| {
      assert d[..i] == d;
    } else {
      assert d[..i] + [d[i]] == d[..i + 1];
      NaiveAtZero(d, i + 1);
    }
  }

  lemma DoubledFrames(d: seq<Frame>, i: nat, s: nat)
    requires 1 <= s <= i && i + s <= |d|
    ensures d[i - s] != d[i] ==> !Doubled(d, i, s)
    ensures s == 1 && d[i - 1] == d[i] ==> Doubled(d, i, 1)
  {
    assert d[i - s..i][0] == d[i - s] && d[i..i + s][0] == d[i];
  }

  /** At depth 1 both forms look at the frame before. */
  lemma SameChoice(kept: seq<Frame>, d: seq<Frame>, cur: nat)
    requires 1 <= cur < |d| && |kept| > 0 && kept[|kept| - 1] == d[cur - 1]
    ensures Shortest(kept, d, cur, 1, 1) == (if d[cur - 1] == d[cur] then 1 else 0) == Lengths(d, 1)[cur]
  {
    assert kept[|kept| - 1..] == [d[cur - 1]] == d[cur - 1..cur] && d[cur..cur + 1] == [d[cur]];
    DoubledFrames(d, cur, 1);
    assert Shortest(kept, d, cur, 2, 1) == 0;
  }

  lemma KeepNext(kept: seq<Frame>, d: seq<Frame>, lens: seq<nat>, i: nat)
    requires |lens| == |d| && i < |d| && lens[i] == 0
    ensures kept + [d[i]] + Kept(d, lens, i + 1) == kept + Kept(d, lens, i)
  {
    assert kept + [d[i]] + Kept(d, lens, i + 1) == kept + ([d[i]] + Kept(d, lens, i + 1));
  }

  lemma {:induction false} NaiveAtOne(kept: seq<Frame>, d: seq<Frame>, lens: seq<nat>, cur: nat)
    requires 1 <= cur <= |d| && |kept| > 0 && kept[|kept| - 1] == d[cur - 1] && lens == Lengths(d, 1)
    ensures NaiveFrom(kept, d, cur, 1) == kept + Kept(d, lens, cur)
    decreases |d| - cur
  {
    if cur == |d| {
      NaiveEnds(kept, d, cur, 1);
      assert kept + [] == kept;
    } else {
      SameChoice(kept, d, cur);
      if d[cur - 1] == d[cur] {
        NaiveAtOne(kept, d, lens, cur + 1);
        NaiveSkips(kept, d, cur, 1, 1, cur + 1);
        SkipRest(d, lens, cur, cur + 1);
      } else {
        NaiveAtOne(kept + [d[cur]], d, lens, cur + 1);
        NaiveKeeps(kept, d, cur, 1, kept + [d[cur]], cur + 1);
        KeepNext(kept, d, lens, cur);
      }
    }
  }

  /** The naive form gives what the other two give. */
  ghost predicate Agree(d: seq<Frame>, depth: nat) {
    |d| > 0 ==> NaiveCollapsed(d, depth) == Collapsed(d, depth)
  }

  lemma AgreeAtZero(d: seq<Frame>, depth: nat)
    requires depth == 0
    ensures Agree(d, depth)
  {
    if |d| > 0 {
      NaiveAtZero(d, 1);
    }
  }

  lemma AgreeAtOne(d: seq<Frame>, depth: nat)
    requires depth == 1
    ensures Agree(d, depth)
  {
    if |d| > 0 {
      NaiveAtOne(d[..1], d, Lengths(d, depth), 1);
      assert d[..1] == [d[0]];
    }
  }

  lemma {:induction false} ShortestStable(kept: seq<Frame>, d: seq<Frame>, cur: nat, s: nat, r: nat, depth: nat)
    requires 1 <= s <= r <= depth && Repeats(kept, d, cur, r)
    requires forall t :: s <= t < r ==> !Repeats(kept, d, cur, t)
    ensures Shortest(kept, d, cur, s, depth) == r
    decreases r - s
  {
    if s < r {
      ShortestStable(kept, d, cur, s + 1, r, depth);
    }
  }

  lemma UpToTwo(d: seq<Frame>, i: nat, depth: nat)
    requires depth == 2
    ensures Longest(d, i, depth) == if Doubled(d, i, 2) then 2 else if Doubled(d, i, 1) then 1 else 0
  {
  }

  lemma LengthsOf(d: seq<Frame>, depth: nat, i: nat)
    requires |d| == 5 && d[0] == 0 && d[1] == 1 && d[2] == 1 && d[3] == 0 && d[4] == 1 && depth >= 2 && 1 <= i < 5
    ensures Lengths(d, depth)[i] == if i == 2 then 1 else 0
  {
    DoubledFrames(d, i, 1);
    if 2 <= i <= 3 {
      DoubledFrames(d, i, 2);
    }
    assert !Doubled(d, i, 2) && (Doubled(d, i, 1) <==> i == 2);
    LongestStable(d, i, 2, depth);
    UpToTwo(d, i, 2);
  }

  lemma KeptOf(d: seq<Frame>, lens: seq<nat>)
    requires d == [0, 1, 1, 0, 1] && |lens| == 5 && lens[1] == lens[3] == lens[4] == 0 && lens[2] == 1
    ensures Kept(d, lens, 1) == [1, 0, 1]
  {
    assert Kept(d, lens, 4) == [1];
    assert Kept(d, lens, 2) == Kept(d, lens, 3) == [0, 1];
  }

  lemma DifferOpt(d: seq<Frame>, depth: nat)
    requires d == [0, 1, 1, 0, 1] && depth >= 2
    ensures Collapsed(d, depth) == [0, 1, 0, 1]
  {
    var lens := Lengths(d, depth);
    LengthsOf(d, depth, 1);
    LengthsOf(d, depth, 2);
    LengthsOf(d, depth, 3);
    LengthsOf(d, depth, 4);
    KeptOf(d, lens);
  }

  lemma NothingFound(a: seq<Frame>, d: seq<Frame>, depth: nat)
    requires |a| == 1 && |d| == 5 && a[0] != d[1] && depth >= 2
    ensures Shortest(a, d, 1, 1, depth) == 0
  {
    NoneLonger(a, d, 1, 2, depth);
    assert a[0..][0] != d[1..2][0];
  }

  lemma FrameFound(b: seq<Frame>, d: seq<Frame>, depth: nat)
    requires |b| == 2 && |d| == 5 && b[1] == d[2] && depth >= 2
    ensures Shortest(b, d, 2, 1, depth) == 1
  {
    assert b[1..] == d[2..3];
    ShortestStable(b, d, 2, 1, 1, depth);
  }

  lemma BlockFound(b: seq<Frame>, d: seq<Frame>, depth: nat)
    requires |b| == 2 && |d| == 5 && b[1] != d[3] && b[0] == d[3] && b[1] == d[4] && depth >= 2
    ensures Shortest(b, d, 3, 1, depth) == 2
  {
    assert b[1..][0] != d[3..4][0];
    assert b[0..] == d[3..5];
    ShortestStable(b, d, 3, 1, 2, depth);
  }

  lemma DifferNaive(d: seq<Frame>, depth: nat)
    requires d == [0, 1, 1, 0, 1] && depth >= 2
    ensures NaiveCollapsed(d, depth) == [0, 1]
  {
    var a, b: seq<Frame> := d[..1], d[..2];
    NaiveEnds(b, d, 5, depth);
    BlockFound(b, d, depth);
    NaiveSkips(b, d, 3, depth, 2, 5);
    FrameFound(b, d, depth);
    NaiveSkips(b, d, 2, depth, 1, 3);
    NothingFound(a, d, depth);
    NaiveKeeps(a, d, 1, depth, b, 2);
  }

  lemma Differ(depth: nat) returns (d: seq<Frame>)
    requires depth >= 2
    ensures !Agree(d, depth)
  {
    d := [0, 1, 1, 0, 1];
    DifferOpt(d, depth);
    DifferNaive(d, depth);
  }

  lemma AgreeUpToOne(d: seq<Frame>, depth: nat)
    requires depth <= 1
    ensures Agree(d, depth)
  {
    if depth == 0 {
      AgreeAtZero(d, depth);
    } else {
      AgreeAtOne(d, depth);
    }
  }

  /** The forms agree on every nonempty trace exactly when the depth is 0 or 1. */
  lemma FormsAgreeIff(depth: nat)
    ensures depth <= 1 <==> forall d {:trigger Agree(d, depth)} :: Agree(d, depth)
  {
    if depth <= 1 {
      forall d {:trigger Agree(d, depth)} | true ensures Agree(d, depth) {
        AgreeUpToOne(d, depth);
      }
    } else {
      var d := Differ(depth);
    }
  }
}
