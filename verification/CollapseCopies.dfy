/**
  How much collapsing removes: no frame stands next to itself afterwards, the first repeated block is
  cut at its longest, and any number of repeated blocks of distinct frames, anywhere in a trace, come
  down to one copy each.
*/
module CollapseCopies {

  import opened Collapse
  import opened CollapseTheorems

  // ----- the whole trace read from position 0

  ghost predicate LengthAt(d: seq<Frame>, lens: seq<nat>, depth: nat, i: nat) {
    i < |lens| && lens[i] == Longest(d, i, depth)
  }

  ghost predicate Measured(d: seq<Frame>, lens: seq<nat>, depth: nat) {
    && |lens| == |d|
    && forall i: nat {:trigger LengthAt(d, lens, depth, i)} :: i < |d| ==> LengthAt(d, lens, depth, i)
  }

  /** Where nothing is skipped all frames are kept. */
  lemma {:induction false} KeptAll(d: seq<Frame>, lens: seq<nat>, i: nat, end: nat)
    requires |lens| == |d| && i <= end <= |d| && forall j :: i <= j < end ==> lens[j] == 0
    ensures Kept(d, lens, i) == d[i..end] + Kept(d, lens, end)
    decreases end - i
  {
    if i == end {
      assert d[i..end] == [];
    } else {
      KeptAll(d, lens, i + 1, end);
      assert [d[i]] + (d[i + 1..end] + Kept(d, lens, end)) == d[i..end] + Kept(d, lens, end);
    }
  }

  lemma LengthsMeasure(d: seq<Frame>, depth: nat, lens: seq<nat>)
    requires lens == Lengths(d, depth)
    ensures Measured(d, lens, depth)
  {
  }

  /** Position 0 needs no special treatment: nothing can be repeated there. */
  lemma CollapsedIsKept(d: seq<Frame>, depth: nat) returns (lens: seq<nat>)
    ensures Measured(d, lens, depth) && Collapsed(d, depth) == Kept(d, lens, 0)
  {
    lens := Lengths(d, depth);
    LengthsMeasure(d, depth, lens);
    if depth == 0 || |d| < 2 {
      KeptAll(d, lens, 0, |d|);
      assert d[0..|d|] + [] == d;
    } else {
      assert lens[0] == 0 && [d[0]] + Kept(d, lens, 1) == Kept(d, lens, 0);
    }
  }

  lemma NaiveIsFromZero(d: seq<Frame>, depth: nat)
    requires |d| > 0
    ensures NaiveCollapsed(d, depth) == NaiveFrom([], d, 0, depth)
  {
    NoneLonger([], d, 0, 1, depth);
    assert [] + [d[0]] == d[..1];
    NaiveKeeps([], d, 0, depth, d[..1], 1);
  }

  // ----- no frame next to itself

  ghost predicate NoStutter(d: seq<Frame>) {
    forall i :: 0 < i < |d| ==> d[i - 1] != d[i]
  }

  lemma Prepend(f: Frame, d: seq<Frame>)
    requires NoStutter(d) && |d| > 0 && f != d[0]
    ensures NoStutter([f] + d)
  {
  }

  lemma {:induction false} KeptNoStutter(d: seq<Frame>, depth: nat, i: nat)
    requires depth >= 1 && 1 <= i <= |d|
    ensures NoStutter([d[i - 1]] + Kept(d, Lengths(d, depth), i))
    decreases |d| - i
  {
    if i < |d| {
      var s := Longest(d, i, depth);
      if s == 0 {
        NoLonger(d, i, depth, 1);
        DoubledFrames(d, i, 1);
        KeptNoStutter(d, depth, i + 1);
        Prepend(d[i - 1], [d[i]] + Kept(d, Lengths(d, depth), i + 1));
      } else {
        assert d[i - s..i][s - 1] == d[i..i + s][s - 1];
        KeptNoStutter(d, depth, i + s);
      }
    }
  }

  /** The scalar and the 8-wide form leave no frame next to itself. */
  lemma CollapsedNoStutter(d: seq<Frame>, depth: nat)
    requires depth >= 1
    ensures NoStutter(Collapsed(d, depth))
  {
    if |d| >= 2 {
      KeptNoStutter(d, depth, 1);
    }
  }

  lemma KeepsNew(kept: seq<Frame>, d: seq<Frame>, cur: nat, depth: nat)
    requires depth >= 1 && cur < |d| && NoStutter(kept) && Shortest(kept, d, cur, 1, depth) == 0
    ensures NoStutter(kept + [d[cur]])
  {
    if |kept| > 0 {
      assert kept[|kept| - 1..] == [kept[|kept| - 1]] && d[cur..cur + 1] == [d[cur]];
    }
  }

  lemma {:induction false} NaiveFromNoStutter(kept: seq<Frame>, d: seq<Frame>, cur: nat, depth: nat)
    requires depth >= 1 && cur <= |d| && NoStutter(kept)
    ensures NoStutter(NaiveFrom(kept, d, cur, depth))
    decreases |d| - cur
  {
    if cur < |d| {
      var s := Shortest(kept, d, cur, 1, depth);
      if s > 0 {
        var next := cur + s;
        NaiveSkips(kept, d, cur, depth, s, next);
        NaiveFromNoStutter(kept, d, next, depth);
      } else {
        var more := kept + [d[cur]];
        KeepsNew(kept, d, cur, depth);
        NaiveKeeps(kept, d, cur, depth, more, cur + 1);
        NaiveFromNoStutter(more, d, cur + 1, depth);
      }
    }
  }

  /** Nor does the naive form. */
  lemma NaiveNoStutter(d: seq<Frame>, depth: nat)
    requires depth >= 1 && |d| > 0
    ensures NoStutter(NaiveCollapsed(d, depth))
  {
    NaiveFromNoStutter(d[..1], d, 1, depth);
  }

  // ----- which block is cut

  ghost predicate Plain(d: seq<Frame>, depth: nat, i: nat) {
    forall j: nat, s: nat {:trigger Doubled(d, j, s)} :: j < i && s <= depth ==> !Doubled(d, j, s)
  }

  lemma IsLongest(d: seq<Frame>, i: nat, depth: nat, s: nat)
    requires s <= depth && Doubled(d, i, s) && forall t: nat :: s < t <= depth ==> !Doubled(d, i, t)
    ensures Longest(d, i, depth) == s
  {
    if Longest(d, i, depth) < s {
      NoLonger(d, i, depth, s);
    }
  }

  /** The first repeated block is cut at its longest; if it ends the trace that is all. */
  lemma LongestIsCut(d: seq<Frame>, depth: nat, i: nat, s: nat)
    requires Plain(d, depth, i) && s <= depth && Doubled(d, i, s) && i + s == |d|
    ensures Collapsed(d, depth) == d[..i]
  {
    var lens := CollapsedIsKept(d, depth);
    forall j | 0 <= j < i ensures lens[j] == 0 {
      assert LengthAt(d, lens, depth, j);
    }
    KeptAll(d, lens, 0, i);
    IsLongest(d, i, depth, s);
    assert LengthAt(d, lens, depth, i);
    SkipRest(d, lens, i, |d|);
    assert d[0..i] + [] == d[..i];
  }

  /** A trace written twice comes down to one copy if no block is repeated before the second one. */
  lemma HalvesCollapse(x: seq<Frame>, depth: nat)
    requires 1 <= |x| <= depth && Plain(x + x, depth, |x|)
    ensures Collapsed(x + x, depth) == x
  {
    var d := x + x;
    assert d[0..|x|] == x == d[|x|..|x| + |x|];
    assert Doubled(d, |x|, |x|);
    LongestIsCut(d, depth, |x|, |x|);
  }

  lemma {:induction false} ShortestAtMost(kept: seq<Frame>, d: seq<Frame>, cur: nat, from: nat, s: nat, depth: nat)
    requires 1 <= from <= s <= depth && Repeats(kept, d, cur, s)
    ensures 1 <= Shortest(kept, d, cur, from, depth) <= s
    decreases s - from
  {
    if !Repeats(kept, d, cur, from) {
      ShortestAtMost(kept, d, cur, from + 1, s, depth);
    }
  }

  lemma RestRepeats(kept: seq<Frame>, d: seq<Frame>, cur: nat, s: nat, t: nat, next: nat)
    requires Repeats(kept, d, cur, s) && t < s && next == cur + t
    ensures Repeats(kept, d, next, s - t)
  {
    assert kept[|kept| - (s - t)..] == kept[|kept| - s..][t..] == d[cur..cur + s][t..] == d[next..cur + s];
  }

  lemma SkipsSome(kept: seq<Frame>, d: seq<Frame>, cur: nat, s: nat, depth: nat) returns (t: nat, next: nat)
    requires s <= depth && Repeats(kept, d, cur, s)
    ensures 1 <= t <= s && next == cur + t && NaiveFrom(kept, d, cur, depth) == NaiveFrom(kept, d, next, depth)
  {
    t := Shortest(kept, d, cur, 1, depth);
    next := cur + t;
    ShortestAtMost(kept, d, cur, 1, s, depth);
    NaiveSkips(kept, d, cur, depth, t, next);
  }

  /** For the naive form the choice makes no difference: cutting any repeated block leads to the same end. */
  lemma {:induction false} NaiveCutsAny(kept: seq<Frame>, d: seq<Frame>, cur: nat, s: nat, depth: nat, end: nat)
    requires s <= depth && Repeats(kept, d, cur, s) && end == cur + s
    ensures NaiveFrom(kept, d, cur, depth) == NaiveFrom(kept, d, end, depth)
    decreases s
  {
    var t, next := SkipsSome(kept, d, cur, s, depth);
    if t < s {
      RestRepeats(kept, d, cur, s, t, next);
      NaiveCutsAny(kept, d, next, s - t, depth, end);
    }
  }

  // ----- copies of a block

  function Copies(x: seq<Frame>, k: nat): seq<Frame> {
    if k == 0 then [] else Copies(x, k - 1) + x
  }

  /** Where copy c begins, for copies of n frames. */
  function Start(n: nat, c: nat): nat {
    if c == 0 then 0 else Start(n, c - 1) + n
  }

  ghost predicate Distinct(x: seq<Frame>) {
    forall i, j :: 0 <= i < j < |x| ==> x[i] != x[j]
  }

  lemma {:induction false} StartsAdd(n: nat, a: nat, b: nat)
    ensures Start(n, a + b) == Start(n, a) + Start(n, b)
  {
    if b > 0 {
      StartsAdd(n, a, b - 1);
    }
  }

  lemma {:induction false} StartsGrow(n: nat, a: nat, b: nat)
    requires a < b
    ensures Start(n, a) + n <= Start(n, b)
  {
    if a + 1 < b {
      StartsGrow(n, a, b - 1);
    }
  }

  lemma {:induction false} Locate(n: nat, c: nat, j: nat) returns (b: nat, r: nat)
    requires j < Start(n, c)
    ensures b < c && r < n && j == Start(n, b) + r
  {
    if j < Start(n, c - 1) {
      b, r := Locate(n, c - 1, j);
    } else {
      b, r := c - 1, j - Start(n, c - 1);
    }
  }

  /** From position at on d holds x. */
  ghost predicate Holding(d: seq<Frame>, at: nat, x: seq<Frame>) {
    at + |x| <= |d| && forall r :: 0 <= r < |x| ==> d[at + r] == x[r]
  }

  /** Copy c of x stands where it should when the first one stands at p. */
  ghost predicate CopyStands(d: seq<Frame>, p: nat, x: seq<Frame>, c: nat) {
    Holding(d, p + Start(|x|, c), x)
  }

  ghost predicate Stacked(d: seq<Frame>, p: nat, x: seq<Frame>, k: nat) {
    forall c: nat {:trigger CopyStands(d, p, x, c)} :: c < k ==> CopyStands(d, p, x, c)
  }

  /** From position p on d holds k copies of x, and the frames of x stand nowhere else. */
  ghost predicate Standing(d: seq<Frame>, p: nat, x: seq<Frame>, k: nat) {
    && p + Start(|x|, k) <= |d| && Stacked(d, p, x, k)
    && (forall q :: 0 <= q < |d| && d[q] in x ==> p <= q < p + Start(|x|, k))
  }

  lemma SliceHeld(d: seq<Frame>, at: nat, x: seq<Frame>)
    requires Holding(d, at, x)
    ensures d[at..at + |x|] == x
  {
  }

  lemma FrameAt(d: seq<Frame>, p: nat, x: seq<Frame>, k: nat, c: nat, r: nat, i: nat)
    requires Standing(d, p, x, k) && c < k && r < |x| && i == p + Start(|x|, c) + r
    ensures i < |d| && d[i] == x[r] && d[i] in x
  {
    assert CopyStands(d, p, x, c);
  }

  // ----- the scalar and the 8-wide form

  lemma SameFrames(d: seq<Frame>, i: nat, s: nat)
    requires Doubled(d, i, s)
    ensures d[i - s] == d[i] && d[i - 1] == d[i + s - 1]
  {
    assert d[i - s..i][0] == d[i..i + s][0] && d[i - s..i][s - 1] == d[i..i + s][s - 1];
  }

  /** A block repeated at the start of a copy begins at the start of an earlier copy. */
  lemma BeginsWhole(d: seq<Frame>, p: nat, x: seq<Frame>, k: nat, c: nat, s: nat, i: nat) returns (b: nat)
    requires Standing(d, p, x, k) && Distinct(x) && |x| > 0 && c < k && i == p + Start(|x|, c) && Doubled(d, i, s)
    ensures b < c && Start(|x|, b) + s == Start(|x|, c)
  {
    SameFrames(d, i, s);
    FrameAt(d, p, x, k, c, 0, i);
    var r;
    b, r := Locate(|x|, c, i - s - p);
    FrameAt(d, p, x, k, b, r, i - s);
  }

  /** And it ends at the end of a later copy. */
  lemma EndsWhole(d: seq<Frame>, p: nat, x: seq<Frame>, k: nat, c: nat, s: nat, i: nat) returns (next: nat)
    requires Standing(d, p, x, k) && Distinct(x) && |x| > 0 && 1 <= c < k
    requires i == p + Start(|x|, c) && Doubled(d, i, s)
    ensures c < next <= k && p + Start(|x|, next) == i + s
  {
    var b := BeginsWhole(d, p, x, k, c, s, i);
    next := c + (c - b);
    StartsAdd(|x|, c, c - b);
    StartsAdd(|x|, b, c - b);
    SameFrames(d, i, s);
    FrameAt(d, p, x, k, c - 1, |x| - 1, i - 1);
    if next > k {
      StartsGrow(|x|, k, next);
    }
  }

  lemma CopyRepeats(d: seq<Frame>, p: nat, x: seq<Frame>, k: nat, c: nat, i: nat)
    requires Standing(d, p, x, k) && |x| > 0 && 1 <= c < k && i == p + Start(|x|, c)
    ensures Doubled(d, i, |x|)
  {
    assert CopyStands(d, p, x, c - 1) && CopyStands(d, p, x, c);
    SliceHeld(d, i - |x|, x);
    SliceHeld(d, i, x);
  }

  /** Behind the first copy a number of whole copies is skipped. */
  lemma SkipsWhole(d: seq<Frame>, lens: seq<nat>, p: nat, x: seq<Frame>, k: nat, depth: nat, c: nat, i: nat)
    returns (next: nat, at: nat)
    requires Measured(d, lens, depth) && Standing(d, p, x, k) && Distinct(x) && 1 <= |x| <= depth && 1 <= c < k
    requires i == p + Start(|x|, c)
    ensures c < next <= k && at == p + Start(|x|, next) && Kept(d, lens, i) == Kept(d, lens, at)
  {
    CopyRepeats(d, p, x, k, c, i);
    var s := Longest(d, i, depth);
    if s == 0 {
      NoLonger(d, i, depth, |x|);
    }
    next := EndsWhole(d, p, x, k, c, s, i);
    at := p + Start(|x|, next);
    assert LengthAt(d, lens, depth, i);
    SkipRest(d, lens, i, at);
  }

  lemma {:induction false} KeptCopies(d: seq<Frame>, lens: seq<nat>, p: nat, x: seq<Frame>, k: nat, depth: nat,
                                      c: nat, i: nat, end: nat)
    requires Measured(d, lens, depth) && Standing(d, p, x, k) && Distinct(x) && 1 <= |x| <= depth && 1 <= c <= k
    requires i == p + Start(|x|, c) && end == p + Start(|x|, k)
    ensures Kept(d, lens, i) == Kept(d, lens, end)
    decreases k - c
  {
    if c < k {
      var next, at := SkipsWhole(d, lens, p, x, k, depth, c, i);
      KeptCopies(d, lens, p, x, k, depth, next, at, end);
    }
  }

  /** A frame that has not been there before is kept. */
  lemma NewFrame(d: seq<Frame>, i: nat, depth: nat)
    requires i < |d| && d[i] !in d[..i]
    ensures Longest(d, i, depth) == 0
  {
    var s := Longest(d, i, depth);
    if s > 0 {
      SameFrames(d, i, s);
    }
  }

  lemma NewInFirst(d: seq<Frame>, p: nat, x: seq<Frame>, k: nat, r: nat, i: nat)
    requires Standing(d, p, x, k) && Distinct(x) && k >= 1 && r < |x| && i == p + r
    ensures i < |d| && d[i] == x[r] && x[r] !in d[..i]
  {
    FrameAt(d, p, x, k, 0, r, i);
    if x[r] in d[..i] {
      var q :| 0 <= q < i && d[q] == x[r];
      FrameAt(d, p, x, k, 0, q - p, q);
    }
  }

  lemma {:induction false} Stays(n: nat, k: nat)
    requires k >= 1 && (k == 1 || n == 0)
    ensures Start(n, k) == n
  {
    if k > 1 {
      Stays(n, k - 1);
    }
  }

  lemma KeptFirst(d: seq<Frame>, lens: seq<nat>, p: nat, x: seq<Frame>, k: nat, depth: nat, next: nat)
    requires Measured(d, lens, depth) && Standing(d, p, x, k) && Distinct(x) && k >= 1 && next == p + |x|
    ensures Kept(d, lens, p) == x + Kept(d, lens, next)
  {
    assert CopyStands(d, p, x, 0);
    forall j | p <= j < next ensures lens[j] == 0 {
      NewInFirst(d, p, x, k, j - p, j);
      NewFrame(d, j, depth);
      assert LengthAt(d, lens, depth, j);
    }
    SliceHeld(d, p, x);
    KeptAll(d, lens, p, next);
  }

  lemma KeptOnce(d: seq<Frame>, lens: seq<nat>, p: nat, x: seq<Frame>, k: nat, depth: nat, end: nat)
    requires Measured(d, lens, depth) && Standing(d, p, x, k) && Distinct(x) && k >= 1 && (k > 1 ==> |x| <= depth)
    requires end == p + Start(|x|, k)
    ensures Kept(d, lens, p) == x + Kept(d, lens, end)
  {
    var next := p + |x|;
    KeptFirst(d, lens, p, x, k, depth, next);
    if k > 1 && |x| > 0 {
      Stays(|x|, 1);
      KeptCopies(d, lens, p, x, k, depth, 1, next, end);
    } else {
      Stays(|x|, k);
    }
  }

  // ----- the naive form

  ghost predicate EndsIn(kept: seq<Frame>, x: seq<Frame>) {
    |x| <= |kept| && Holding(kept, |kept| - |x|, x)
  }

  /** Behind one copy the next one is skipped. */
  lemma NextCopy(kept: seq<Frame>, x: seq<Frame>, d: seq<Frame>, at: nat, next: nat, depth: nat)
    requires EndsIn(kept, x) && 1 <= |x| <= depth && next == at + |x| && Holding(d, at, x)
    ensures NaiveFrom(kept, d, at, depth) == NaiveFrom(kept, d, next, depth)
  {
    SliceHeld(d, at, x);
    SliceHeld(kept, |kept| - |x|, x);
    assert kept[|kept| - |x|..|kept|] == kept[|kept| - |x|..];
    NaiveCutsAny(kept, d, at, |x|, depth, next);
  }

  lemma {:induction false} NaiveCopies(kept: seq<Frame>, d: seq<Frame>, p: nat, x: seq<Frame>, k: nat, depth: nat,
                                       c: nat, at: nat, end: nat)
    requires Stacked(d, p, x, k) && EndsIn(kept, x) && 1 <= |x| <= depth && 1 <= c <= k
    requires at == p + Start(|x|, c) && end == p + Start(|x|, k)
    ensures NaiveFrom(kept, d, at, depth) == NaiveFrom(kept, d, end, depth)
    decreases k - c
  {
    if c < k {
      assert CopyStands(d, p, x, c);
      var next := at + |x|;
      NextCopy(kept, x, d, at, next, depth);
      NaiveCopies(kept, d, p, x, k, depth, c + 1, next, end);
    }
  }

  lemma RepeatedFrame(kept: seq<Frame>, d: seq<Frame>, i: nat, s: nat)
    requires Repeats(kept, d, i, s)
    ensures kept[|kept| - s] == d[i]
  {
    assert kept[|kept| - s..][0] == d[i..i + s][0];
  }

  lemma NewNaively(kept: seq<Frame>, d: seq<Frame>, i: nat, depth: nat)
    requires i < |d| && d[i] !in kept
    ensures Shortest(kept, d, i, 1, depth) == 0
  {
    var s := Shortest(kept, d, i, 1, depth);
    if s > 0 {
      RepeatedFrame(kept, d, i, s);
    }
  }

  lemma {:induction false} NaiveFirst(pre: seq<Frame>, d: seq<Frame>, p: nat, x: seq<Frame>, k: nat, depth: nat,
                                      r: nat, at: nat, next: nat)
    requires Standing(d, p, x, k) && Distinct(x) && k >= 1 && r <= |x| && at == p + r && next == p + |x|
    requires forall f :: f in x ==> f !in pre
    ensures NaiveFrom(pre + x[..r], d, at, depth) == NaiveFrom(pre + x, d, next, depth)
    decreases |x| - r
  {
    var kept := pre + x[..r];
    if r == |x| {
      assert kept == pre + x;
    } else {
      NewInFirst(d, p, x, k, r, at);
      NewNaively(kept, d, at, depth);
      assert kept + [d[at]] == pre + x[..r + 1];
      NaiveKeeps(kept, d, at, depth, pre + x[..r + 1], at + 1);
      NaiveFirst(pre, d, p, x, k, depth, r + 1, at + 1, next);
    }
  }

  lemma NaiveOthers(kept: seq<Frame>, d: seq<Frame>, p: nat, x: seq<Frame>, k: nat, depth: nat, at: nat, end: nat)
    requires Standing(d, p, x, k) && EndsIn(kept, x) && k >= 1 && (k > 1 ==> |x| <= depth)
    requires at == p + |x| && end == p + Start(|x|, k)
    ensures NaiveFrom(kept, d, at, depth) == NaiveFrom(kept, d, end, depth)
  {
    if k > 1 && |x| > 0 {
      Stays(|x|, 1);
      NaiveCopies(kept, d, p, x, k, depth, 1, at, end);
    } else {
      Stays(|x|, k);
    }
  }

  lemma NaiveOnce(pre: seq<Frame>, kept: seq<Frame>, d: seq<Frame>, p: nat, x: seq<Frame>, k: nat, depth: nat,
                  end: nat)
    requires Standing(d, p, x, k) && Distinct(x) && k >= 1 && (k > 1 ==> |x| <= depth) && end == p + Start(|x|, k)
    requires (forall f :: f in x ==> f !in pre) && kept == pre + x
    ensures NaiveFrom(pre, d, p, depth) == NaiveFrom(kept, d, end, depth)
  {
    var next := p + |x|;
    assert pre + x[..0] == pre && EndsIn(kept, x);
    NaiveFirst(pre, d, p, x, k, depth, 0, p, next);
    NaiveOthers(kept, d, p, x, k, depth, next, end);
  }

  // ----- a trace made of runs

  datatype Run = Run(block: seq<Frame>, times: nat)

  /** The trace in which every block is repeated as often as its run says. */
  function Unrolled(runs: seq<Run>): seq<Frame> {
    if runs == [] then [] else Copies(runs[0].block, runs[0].times) + Unrolled(runs[1..])
  }

  /** The trace in which every block stands once. */
  function Rolled(runs: seq<Run>): seq<Frame> {
    if runs == [] then [] else runs[0].block + Rolled(runs[1..])
  }

  ghost predicate Collapsible(runs: seq<Run>, depth: nat) {
    forall r :: r in runs ==> r.times >= 1 && (r.times > 1 ==> |r.block| <= depth)
  }

  lemma {:induction false} CopiesLength(x: seq<Frame>, k: nat)
    ensures |Copies(x, k)| == Start(|x|, k)
  {
    if k > 0 {
      CopiesLength(x, k - 1);
    }
  }

  lemma {:induction false} CopiesHold(x: seq<Frame>, k: nat, c: nat)
    requires c < k
    ensures Holding(Copies(x, k), Start(|x|, c), x)
  {
    CopiesLength(x, k - 1);
    if c + 1 < k {
      CopiesHold(x, k - 1, c);
    }
  }

  lemma {:induction false} CopiesFrames(x: seq<Frame>, k: nat, f: Frame)
    requires f in Copies(x, k)
    ensures f in x
  {
    if f !in x {
      CopiesFrames(x, k - 1, f);
    }
  }

  lemma {:induction false} UnrolledFrames(runs: seq<Run>, f: Frame)
    requires f in Unrolled(runs)
    ensures f in Rolled(runs)
  {
    if f in Copies(runs[0].block, runs[0].times) {
      CopiesFrames(runs[0].block, runs[0].times, f);
    } else {
      UnrolledFrames(runs[1..], f);
    }
  }

  ghost predicate Apart(a: seq<Frame>, b: seq<Frame>) {
    forall f :: f in a ==> f !in b
  }

  lemma DistinctParts(a: seq<Frame>, b: seq<Frame>)
    requires Distinct(a + b)
    ensures Distinct(a) && Distinct(b) && Apart(a, b)
  {
    var d := a + b;
    forall i, j | 0 <= i < |a| && 0 <= j < |b| ensures a[i] != b[j] {
      assert d[i] != d[|a| + j];
    }
    forall i, j | 0 <= i < j < |b| ensures b[i] != b[j] {
      assert d[|a| + i] != d[|a| + j];
    }
    forall i, j | 0 <= i < j < |a| ensures a[i] != a[j] {
      assert d[i] != d[j];
    }
  }

  lemma HoldsWithin(pre: seq<Frame>, y: seq<Frame>, post: seq<Frame>, at: nat, x: seq<Frame>)
    requires Holding(y, at, x)
    ensures Holding(pre + (y + post), |pre| + at, x)
  {
    var d := pre + (y + post);
    forall r | 0 <= r < |x| ensures d[|pre| + at + r] == x[r] {
      assert d[|pre| + at + r] == y[at + r];
    }
  }

  lemma StandingIn(pre: seq<Frame>, x: seq<Frame>, k: nat, post: seq<Frame>)
    requires Apart(x, pre) && Apart(x, post)
    ensures Standing(pre + (Copies(x, k) + post), |pre|, x, k)
  {
    var y := Copies(x, k);
    var d := pre + (y + post);
    CopiesLength(x, k);
    forall c: nat | c < k ensures CopyStands(d, |pre|, x, c) {
      CopiesHold(x, k, c);
      HoldsWithin(pre, y, post, Start(|x|, c), x);
    }
  }

  /** The first run of what is left of a trace stands where it should. */
  lemma RunStands(pre: seq<Frame>, runs: seq<Run>, x: seq<Frame>, k: nat)
    requires runs != [] && x == runs[0].block && k == runs[0].times
    requires Distinct(Rolled(runs)) && Apart(Rolled(runs), pre)
    ensures Standing(pre + Unrolled(runs), |pre|, x, k) && Distinct(x) && Apart(x, pre)
  {
    var rest := runs[1..];
    DistinctParts(x, Rolled(rest));
    forall f | f in x ensures f !in pre && f !in Unrolled(rest) {
      assert f in Rolled(runs);
      if f in Unrolled(rest) {
        UnrolledFrames(rest, f);
      }
    }
    StandingIn(pre, x, k, Unrolled(rest));
  }

  lemma ApartNext(pre: seq<Frame>, x: seq<Frame>, k: nat, y: seq<Frame>)
    requires Distinct(x + y) && Apart(x + y, pre)
    ensures Distinct(y) && Apart(y, pre + Copies(x, k))
  {
    DistinctParts(x, y);
    forall f | f in y ensures f !in pre && f !in Copies(x, k) {
      assert f in x + y;
      if f in Copies(x, k) {
        CopiesFrames(x, k, f);
      }
    }
  }

  /** And so do the others behind it. */
  lemma NextRuns(pre: seq<Frame>, runs: seq<Run>, depth: nat, x: seq<Frame>, k: nat, next: seq<Frame>)
    requires runs != [] && x == runs[0].block && k == runs[0].times && next == pre + Copies(x, k)
    requires Collapsible(runs, depth) && Distinct(Rolled(runs)) && Apart(Rolled(runs), pre)
    ensures k >= 1 && (k > 1 ==> |x| <= depth)
    ensures Collapsible(runs[1..], depth) && Distinct(Rolled(runs[1..])) && Apart(Rolled(runs[1..]), next)
    ensures next + Unrolled(runs[1..]) == pre + Unrolled(runs) && |next| == |pre| + Start(|x|, k)
  {
    var rest := runs[1..];
    CopiesLength(x, k);
    ApartNext(pre, x, k, Rolled(rest));
    assert runs[0] in runs;
  }

  lemma {:induction false} KeptRuns(d: seq<Frame>, lens: seq<nat>, pre: seq<Frame>, at: nat, runs: seq<Run>,
                                    depth: nat)
    requires d == pre + Unrolled(runs) && at == |pre| && Measured(d, lens, depth)
    requires Collapsible(runs, depth) && Distinct(Rolled(runs)) && Apart(Rolled(runs), pre)
    ensures Kept(d, lens, at) == Rolled(runs)
    decreases |runs|
  {
    if runs != [] {
      var x, k := runs[0].block, runs[0].times;
      var next := pre + Copies(x, k);
      RunStands(pre, runs, x, k);
      NextRuns(pre, runs, depth, x, k, next);
      KeptOnce(d, lens, at, x, k, depth, |next|);
      KeptRuns(d, lens, next, |next|, runs[1..], depth);
    }
  }

  /** The scalar and the 8-wide form: every run comes down to one copy of its block. */
  lemma RunsCollapse(runs: seq<Run>, depth: nat)
    requires Collapsible(runs, depth) && Distinct(Rolled(runs))
    ensures Collapsed(Unrolled(runs), depth) == Rolled(runs)
  {
    var d := Unrolled(runs);
    var lens := CollapsedIsKept(d, depth);
    assert [] + d == d;
    KeptRuns(d, lens, [], 0, runs, depth);
  }

  lemma ApartDone(x: seq<Frame>, y: seq<Frame>, seen: seq<Frame>, done: seq<Frame>, more: seq<Frame>)
    requires Distinct(x + y) && Apart(x + y, seen) && more == done + x && forall f :: f in done ==> f in seen
    ensures Apart(x, done) && Apart(y, more) && more + y == done + (x + y)
  {
    DistinctParts(x, y);
    assert forall f :: f in x ==> f in x + y;
    assert forall f :: f in y ==> f in x + y;
  }

  lemma NaiveRun(d: seq<Frame>, pre: seq<Frame>, at: nat, done: seq<Frame>, runs: seq<Run>, rest: seq<Run>, depth: nat)
    returns (next: seq<Frame>, more: seq<Frame>)
    requires d == pre + Unrolled(runs) && at == |pre| && runs != [] && rest == runs[1..]
    requires Collapsible(runs, depth) && Distinct(Rolled(runs)) && Apart(Rolled(runs), pre + done)
    ensures d == next + Unrolled(rest) && more + Rolled(rest) == done + Rolled(runs)
    ensures Collapsible(rest, depth) && Distinct(Rolled(rest)) && Apart(Rolled(rest), next + more)
    ensures NaiveFrom(done, d, at, depth) == NaiveFrom(more, d, |next|, depth)
  {
    var x, k := runs[0].block, runs[0].times;
    next, more := pre + Copies(x, k), done + x;
    assert Rolled(runs) == x + Rolled(rest);
    RunStands(pre, runs, x, k);
    NextRuns(pre, runs, depth, x, k, next);
    ApartDone(x, Rolled(rest), pre + done, done, more);
    NaiveOnce(done, more, d, at, x, k, depth, |next|);
  }

  lemma {:induction false} NaiveRuns(d: seq<Frame>, pre: seq<Frame>, at: nat, done: seq<Frame>, runs: seq<Run>,
                                     depth: nat)
    requires d == pre + Unrolled(runs) && at == |pre|
    requires Collapsible(runs, depth) && Distinct(Rolled(runs)) && Apart(Rolled(runs), pre + done)
    ensures NaiveFrom(done, d, at, depth) == done + Rolled(runs)
    decreases |runs|
  {
    if runs == [] {
      NaiveEnds(done, d, at, depth);
    } else {
      var rest := runs[1..];
      var next, more := NaiveRun(d, pre, at, done, runs, rest, depth);
      NaiveRuns(d, next, |next|, more, rest, depth);
    }
  }

  /** The naive form as well. */
  lemma RunsCollapseNaively(runs: seq<Run>, depth: nat)
    requires Collapsible(runs, depth) && Distinct(Rolled(runs)) && |Unrolled(runs)| > 0
    ensures NaiveCollapsed(Unrolled(runs), depth) == Rolled(runs)
  {
    var d := Unrolled(runs);
    assert [] + d == d && [] + Rolled(runs) == Rolled(runs);
    NaiveRuns(d, [], 0, [], runs, depth);
    NaiveIsFromZero(d, depth);
  }

  lemma OneRun(x: seq<Frame>, k: nat, rest: seq<Run>, runs: seq<Run>)
    requires runs == [Run(x, k)] + rest
    ensures Unrolled(runs) == Copies(x, k) + Unrolled(rest) && Rolled(runs) == x + Rolled(rest)
  {
    assert runs[1..] == rest;
  }

  lemma Once(x: seq<Frame>)
    ensures Copies(x, 1) == x
  {
    assert Copies(x, 0) + x == x;
  }

  lemma Surrounded(a: seq<Frame>, x: seq<Frame>, k: nat, b: seq<Frame>, depth: nat) returns (runs: seq<Run>)
    requires |x| <= depth && k >= 1
    ensures Unrolled(runs) == a + Copies(x, k) + b && Rolled(runs) == a + x + b && Collapsible(runs, depth)
  {
    var last := [Run(b, 1)];
    var later := [Run(x, k)] + last;
    runs := [Run(a, 1)] + later;
    OneRun(b, 1, [], last);
    OneRun(x, k, last, later);
    OneRun(a, 1, later, runs);
    Once(a);
    Once(b);
    assert a + (Copies(x, k) + (b + [])) == a + Copies(x, k) + b && a + (x + (b + [])) == a + x + b;
  }

  /** Recursion in the middle of a stack: k copies of at most depth frames collapse, the rest stays. */
  lemma RecursionCollapses(a: seq<Frame>, x: seq<Frame>, k: nat, b: seq<Frame>, depth: nat)
    requires Distinct(a + x + b) && |x| <= depth && k >= 1
    ensures Collapsed(a + Copies(x, k) + b, depth) == a + x + b
    ensures |a + Copies(x, k) + b| > 0 ==> NaiveCollapsed(a + Copies(x, k) + b, depth) == a + x + b
  {
    var runs := Surrounded(a, x, k, b, depth);
    RunsCollapse(runs, depth);
    if |Unrolled(runs)| > 0 {
      RunsCollapseNaively(runs, depth);
    }
  }
}
