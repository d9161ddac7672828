/**
  Collapsing of recursion in a stack trace: runs of repeated blocks of frames are cut down to one
  block.  The scalar and the 8-wide form fill the same table of block lengths and compact the trace
  in place; the naive form compares against the frames it has kept so far.
*/
module Collapse {
  type Frame = nat

  newtype U8 = x: int | 0 <= x < 256

  const MAX_UNWIND_DEPTH: nat := 64
  const SIMD_STRIDE: nat := 8

  // ----- what the table holds

  /** The s frames before position i are repeated at position i. */
  predicate Doubled(d: seq<Frame>, i: nat, s: nat) {
    1 <= s <= i && i + s <= |d| && d[i - s..i] == d[i..i + s]
  }

  /** The longest block of at most depth frames that is repeated at position i; 0 when there is none. */
  function Longest(d: seq<Frame>, i: nat, depth: nat): (s: nat)
    ensures s <= depth
    ensures s == 0 || Doubled(d, i, s)
  {
    if depth == 0 then 0 else if Doubled(d, i, depth) then depth else Longest(d, i, depth - 1)
  }

  lemma {:induction false} NoLonger(d: seq<Frame>, i: nat, depth: nat, t: nat)
    requires Longest(d, i, depth) < t <= depth
    ensures !Doubled(d, i, t)
  {
    if t < depth {
      NoLonger(d, i, depth - 1, t);
    }
  }

  /** The block lengths at all positions. */
  function Lengths(d: seq<Frame>, depth: nat): (lens: seq<nat>)
    ensures |lens| == |d|
  {
    seq(|d|, i requires 0 <= i < |d| => Longest(d, i, depth))
  }

  /** The frames kept from position i on, when lens says how many frames to skip at each position. */
  function Kept(d: seq<Frame>, lens: seq<nat>, i: nat): seq<Frame>
    requires |lens| == |d|
    decreases |d| - i
  {
    if i >= |d| then []
    else if lens[i] == 0 then [d[i]] + Kept(d, lens, i + 1)
    else Kept(d, lens, i + lens[i])
  }

  /** The collapsed trace. */
  function Collapsed(d: seq<Frame>, depth: nat): seq<Frame> {
    if depth == 0 || |d| < 2 then d else [d[0]] + Kept(d, Lengths(d, depth), 1)
  }

  // ----- run lengths

  /** How many consecutive frames before position i equal the frames shift positions later. */
  function Run(d: seq<Frame>, shift: nat, i: nat): (r: nat)
    requires i + shift <= |d|
    ensures r <= i
  {
    if i == 0 || d[i - 1] != d[i - 1 + shift] then 0 else Run(d, shift, i - 1) + 1
  }

  lemma {:induction false} RunCounts(d: seq<Frame>, shift: nat, i: nat)
    requires i + shift <= |d|
    ensures forall j :: i - Run(d, shift, i) <= j < i ==> d[j] == d[j + shift]
    ensures Run(d, shift, i) < i ==> d[i - 1 - Run(d, shift, i)] != d[i - 1 - Run(d, shift, i) + shift]
  {
    if i > 0 && d[i - 1] == d[i - 1 + shift] {
      RunCounts(d, shift, i - 1);
    }
  }

  lemma SliceAt(d: seq<Frame>, a: nat, b: nat, k: nat, j: nat)
    requires a <= b <= |d| && j == a + k < b
    ensures d[a..b][k] == d[j]
  {
  }

  lemma LongRun(d: seq<Frame>, shift: nat, i: nat)
    requires 1 <= shift && i + shift <= |d| && Run(d, shift, i) >= shift
    ensures Doubled(d, i, shift)
  {
    RunCounts(d, shift, i);
    var a, b := d[i - shift..i], d[i..i + shift];
    forall k | 0 <= k < shift ensures a[k] == b[k] {
      var j := i - shift + k;
      SliceAt(d, i - shift, i, k, j);
      SliceAt(d, i, i + shift, k, j + shift);
    }
  }

  lemma ShortRun(d: seq<Frame>, shift: nat, i: nat)
    requires 1 <= shift <= i && i + shift <= |d| && Run(d, shift, i) < shift
    ensures d[i - shift..i] != d[i..i + shift]
  {
    RunCounts(d, shift, i);
    var j := i - 1 - Run(d, shift, i);
    var k := j - (i - shift);
    SliceAt(d, i - shift, i, k, j);
    SliceAt(d, i, i + shift, k, j + shift);
  }

  /** A run as long as the shift is a repeated block, and the other way round. */
  lemma RunIsBlock(d: seq<Frame>, shift: nat, i: nat)
    requires 1 <= shift && i + shift <= |d|
    ensures Run(d, shift, i) >= shift <==> Doubled(d, i, shift)
  {
    if Run(d, shift, i) >= shift {
      LongRun(d, shift, i);
    } else if shift <= i {
      ShortRun(d, shift, i);
    }
  }

  // ----- the table of block lengths

  ghost predicate Holds(table: seq<U8>, lens: seq<nat>) {
    |lens| <= |table| && forall i {:trigger table[i]} :: 1 <= i < |lens| ==> table[i] as nat == lens[i]
  }

  /** The positions before cur hold the lengths of after, the others those of before. */
  ghost predicate Between(table: seq<U8>, before: seq<nat>, after: seq<nat>, cur: nat) {
    && |before| == |after| <= |table|
    && (forall i {:trigger table[i]} :: 1 <= i < cur && i < |after| ==> table[i] as nat == after[i])
    && (forall i {:trigger table[i]} :: 1 <= i && cur <= i < |after| ==> table[i] as nat == before[i])
  }

  /** The lengths of after are those of before, with the blocks of shift frames added. */
  ghost predicate Raises(d: seq<Frame>, before: seq<nat>, after: seq<nat>, shift: nat) {
    && |before| == |after| == |d|
    && forall i {:trigger Doubled(d, i, shift)} :: 0 <= i < |d| ==>
         after[i] == if Doubled(d, i, shift) then shift else before[i]
  }

  lemma LengthsRaise(d: seq<Frame>, shift: nat)
    requires 1 <= shift
    ensures Raises(d, Lengths(d, shift - 1), Lengths(d, shift), shift)
  {
  }

  lemma TableStep(d: seq<Frame>, table: seq<U8>, next: seq<U8>, before: seq<nat>, after: seq<nat>, cur: nat, shift: nat)
    requires Raises(d, before, after, shift) && Between(table, before, after, cur) && 1 <= cur < |d|
    requires |next| == |table| && forall i :: 0 <= i < |next| && i != cur ==> next[i] == table[i]
    requires next[cur] as nat == if Doubled(d, cur, shift) then shift else table[cur] as nat
    ensures Between(next, before, after, cur + 1)
  {
  }

  lemma TableDone(d: seq<Frame>, table: seq<U8>, before: seq<nat>, after: seq<nat>, cur: nat, shift: nat)
    requires Raises(d, before, after, shift) && Between(table, before, after, cur) && |d| < cur + shift
    ensures Holds(table, after)
  {
    forall i | 1 <= i < |after| ensures table[i] as nat == after[i] {
      if cur <= i {
        assert !Doubled(d, i, shift);
      }
    }
  }

  lemma {:induction false} LongestStable(d: seq<Frame>, i: nat, shift: nat, depth: nat)
    requires shift <= depth && (|d| <= i + shift || i <= shift)
    ensures Longest(d, i, depth) == Longest(d, i, shift)
  {
    if shift < depth {
      assert !Doubled(d, i, depth);
      LongestStable(d, i, shift, depth - 1);
    }
  }

  /** Blocks of |d| or more frames do not occur, so the lengths settle. */
  lemma LengthsStable(d: seq<Frame>, table: seq<U8>, shift: nat, depth: nat)
    requires shift <= depth && (shift == depth || |d| <= shift + 1) && Holds(table, Lengths(d, shift))
    ensures Holds(table, Lengths(d, depth))
  {
    var lens, settled := Lengths(d, shift), Lengths(d, depth);
    if shift < depth {
      forall i | 1 <= i < |d| ensures lens[i] == settled[i] {
        LongestStable(d, i, shift, depth);
      }
    }
  }

  ghost predicate AreLengths(d: seq<Frame>, depth: nat, lens: seq<nat>) {
    lens == Lengths(d, depth)
  }

  lemma NoLengths(d: seq<Frame>, table: seq<U8>) returns (lens: seq<nat>)
    requires |d| <= |table| && forall i :: 1 <= i < |table| ==> table[i] == 0
    ensures Holds(table, lens) && AreLengths(d, 0, lens)
  {
    lens := Lengths(d, 0);
  }

  lemma NextLengths(d: seq<Frame>, shift: nat, lens: seq<nat>) returns (next: seq<nat>)
    requires 1 <= shift && AreLengths(d, shift - 1, lens)
    ensures AreLengths(d, shift, next) && Raises(d, lens, next, shift)
  {
    LengthsRaise(d, shift);
    next := Lengths(d, shift);
  }

  ghost predicate Within(lens: seq<nat>) {
    forall i :: 0 <= i < |lens| ==> i + lens[i] <= |lens|
  }

  lemma LengthsWithin(d: seq<Frame>, depth: nat)
    ensures Within(Lengths(d, depth))
  {
  }

  lemma LastLengths(d: seq<Frame>, table: seq<U8>, shift: nat, lens: seq<nat>, depth: nat) returns (last: seq<nat>)
    requires AreLengths(d, shift, lens) && Holds(table, lens)
    requires shift <= depth && (shift == depth || |d| <= shift + 1)
    ensures AreLengths(d, depth, last) && |last| == |d| && Holds(table, last) && Within(last)
  {
    LengthsStable(d, table, shift, depth);
    LengthsWithin(d, depth);
    last := Lengths(d, depth);
  }

  // ----- the scalar form

  method ScanShift(data: array<Frame>, table: array<U8>, shift: nat, ghost before: seq<nat>, ghost after: seq<nat>)
    requires 2 <= data.Length <= MAX_UNWIND_DEPTH == table.Length && 1 <= shift
    requires Raises(data[..], before, after, shift) && Holds(table[..], before)
    modifies table
    ensures Holds(table[..], after)
  {
    ghost var d := data[..];
    var prev := data[0];
    var dp: U8 := 0;
    var cur: nat := 1;
    var shifted: nat := cur + shift - 1;
    while shifted < data.Length
      invariant 1 <= cur <= data.Length && shifted == cur + shift - 1
      invariant prev == data[cur - 1]
      invariant shifted <= data.Length ==> dp as nat == Run(d, shift, cur - 1)
      invariant Between(table[..], before, after, cur)
    {
      var next := data[shifted];
      ghost var was := table[..];
      RunIsBlock(d, shift, cur);
      if prev != next {
        dp := 0;
      } else {
        dp := dp + 1;
        if dp as nat >= shift {
          table[cur] := shift as U8;
        }
      }
      TableStep(d, was, table[..], before, after, cur, shift);
      prev := data[cur];
      cur := cur + 1;
      shifted := shifted + 1;
    }
    TableDone(d, table[..], before, after, cur, shift);
  }

  /** The trace while it is compacted: positions up to left are final, positions from cur on are to come. */
  ghost predicate Compacting(d: seq<Frame>, lens: seq<nat>, now: seq<Frame>, left: nat, cur: nat) {
    && left < cur <= |d| == |now| == |lens|
    && now[..left + 1] + Kept(d, lens, cur) == [d[0]] + Kept(d, lens, 1)
    && now[left + 1..] == d[left + 1..]
  }

  lemma Regroup(kept: seq<Frame>, f: Frame, rest: seq<Frame>)
    ensures kept + [f] + rest == kept + ([f] + rest)
  {
  }

  /** Frame cur moves to the end of the kept frames; what follows them is still the trace. */
  lemma MovesUp(d: seq<Frame>, now: seq<Frame>, next: seq<Frame>, left: nat, cur: nat)
    requires left < cur < |d| == |now| && now[left + 1..] == d[left + 1..] && next == now[left + 1 := now[cur]]
    ensures next[..left + 2] == now[..left + 1] + [d[cur]] && next[left + 2..] == d[left + 2..]
  {
    assert now[cur] == now[left + 1..][cur - left - 1] == d[cur];
    assert next[left + 2..] == now[left + 1..][1..] == d[left + 2..];
  }

  lemma KeepFrame(d: seq<Frame>, lens: seq<nat>, now: seq<Frame>, left: nat, cur: nat)
    requires cur < |d| && Compacting(d, lens, now, left, cur) && lens[cur] == 0
    ensures Compacting(d, lens, now[left + 1 := now[cur]], left + 1, cur + 1)
  {
    var kept := now[..left + 1];
    MovesUp(d, now, now[left + 1 := now[cur]], left, cur);
    Regroup(kept, d[cur], Kept(d, lens, cur + 1));
  }

  /** Both in-place forms end with this loop. */
  method Compact(data: array<Frame>, table: array<U8>, ghost lens: seq<nat>) returns (size: nat)
    requires 2 <= data.Length == |lens| <= table.Length
    requires Holds(table[..], lens) && Within(lens)
    modifies data
    ensures size <= data.Length
    ensures data[..size] == old([data[0]] + Kept(data[..], lens, 1))
    ensures data[size..] == old(data[size..])
  {
    ghost var d, t := data[..], table[..];
    var left: nat := 0;
    var cur: nat := 1;
    while cur < data.Length
      invariant Compacting(d, lens, data[..], left, cur)
      invariant table[..] == t
    {
      assert table[cur] as nat == t[cur] as nat == lens[cur];
      if table[cur] == 0 {
        ghost var next := data[..][left + 1 := data[cur]];
        KeepFrame(d, lens, data[..], left, cur);
        left := left + 1;
        data[left] := data[cur];
        cur := cur + 1;
        assert data[..] == next;
      } else {
        cur := cur + table[cur] as nat;
      }
    }
    size := left + 1;
  }

  method CollapseRecursionOpt(data: array<Frame>, depth: nat) returns (size: nat)
    requires data.Length <= MAX_UNWIND_DEPTH
    modifies data
    ensures size <= data.Length
    ensures data[..size] == Collapsed(old(data[..]), depth)
    ensures data[size..] == old(data[size..])
  {
    if depth == 0 || data.Length < 2 {
      assert data[..data.Length] == data[..];
      return data.Length;
    }
    ghost var d := data[..];
    var table := new U8[MAX_UNWIND_DEPTH](_ => 0);
    table[0] := if data[0] == data[1] then 1 else 0;
    ghost var lens := NoLengths(d, table[..]);
    var shift: nat := 1;
    while shift <= depth
      invariant 1 <= shift <= depth + 1
      invariant data[..] == d
      invariant Holds(table[..], lens) && AreLengths(d, shift - 1, lens)
    {
      ghost var next := NextLengths(d, shift, lens);
      ScanShift(data, table, shift, lens, next);
      lens := next;
      shift := shift + 1;
    }
    lens := LastLengths(d, table[..], shift - 1, lens, depth);
    size := Compact(data, table, lens);
  }

  // ----- the 8-wide form

  /** The comparison mask of two loaded blocks, lowest lane first. */
  function CompareMask(current: seq<Frame>, shifted: seq<Frame>): (mask: seq<bool>)
    requires |current| == |shifted|
    ensures |mask| == |current|
    ensures forall j :: 0 <= j < |mask| ==> mask[j] == (current[j] == shifted[j])
  {
    seq(|current|, j requires 0 <= j < |current| => current[j] == shifted[j])
  }

  /** One lane: the frame at position i against the one shift later. */
  method Lane(data: array<Frame>, table: array<U8>, shift: nat, i: nat, equal: bool, lastDp: U8,
              ghost before: seq<nat>, ghost after: seq<nat>)
    returns (dp: U8)
    requires data.Length <= MAX_UNWIND_DEPTH == table.Length && 1 <= shift && i + shift < data.Length
    requires equal == (data[i] == data[i + shift]) && lastDp as nat == Run(data[..], shift, i)
    requires Raises(data[..], before, after, shift) && Between(table[..], before, after, i + 1)
    modifies table
    ensures dp as nat == Run(data[..], shift, i + 1)
    ensures Between(table[..], before, after, i + 2)
  {
    ghost var d, was := data[..], table[..];
    RunIsBlock(d, shift, i + 1);
    if !equal {
      dp := 0;
    } else {
      dp := lastDp + 1;
      if dp as nat >= shift {
        table[i + 1] := shift as U8;
      }
    }
    TableStep(d, was, table[..], before, after, i + 1, shift);
  }

  lemma MaskStep(mask: seq<bool>, lanes: seq<bool>, j: nat)
    requires |mask| == |lanes| == SIMD_STRIDE && j < SIMD_STRIDE && mask[..SIMD_STRIDE - j] == lanes[j..]
    ensures mask[0] == lanes[j] && (mask[1..] + [false])[..SIMD_STRIDE - (j + 1)] == lanes[j + 1..]
  {
    assert mask[0] == mask[..SIMD_STRIDE - j][0];
    assert (mask[1..] + [false])[..SIMD_STRIDE - (j + 1)] == mask[..SIMD_STRIDE - j][1..];
  }

  method ScanBlock(data: array<Frame>, table: array<U8>, shift: nat, i: nat, lastDp: U8,
                   ghost before: seq<nat>, ghost after: seq<nat>)
    returns (dp: U8)
    requires data.Length <= MAX_UNWIND_DEPTH == table.Length && 1 <= shift && i + SIMD_STRIDE + shift <= data.Length
    requires lastDp as nat == Run(data[..], shift, i)
    requires Raises(data[..], before, after, shift) && Between(table[..], before, after, i + 1)
    modifies table
    ensures dp as nat == Run(data[..], shift, i + SIMD_STRIDE)
    ensures Between(table[..], before, after, i + SIMD_STRIDE + 1)
  {
    var current := data[i..i + SIMD_STRIDE];
    var shifted := data[i + shift..i + shift + SIMD_STRIDE];
    var mask := CompareMask(current, shifted);
    ghost var lanes := mask;
    dp := lastDp;
    var j: nat := 0;
    while j < SIMD_STRIDE
      invariant j <= SIMD_STRIDE && |mask| == SIMD_STRIDE
      invariant mask[..SIMD_STRIDE - j] == lanes[j..]
      invariant dp as nat == Run(data[..], shift, i + j)
      invariant Between(table[..], before, after, i + j + 1)
    {
      MaskStep(mask, lanes, j);
      dp := Lane(data, table, shift, i + j, mask[0], dp, before, after);
      mask := mask[1..] + [false];
      j := j + 1;
    }
  }

  method ScanShiftAvx(data: array<Frame>, table: array<U8>, shift: nat, maxIndex: nat,
                      ghost before: seq<nat>, ghost after: seq<nat>)
    requires data.Length <= MAX_UNWIND_DEPTH == table.Length && 1 <= shift && maxIndex + shift == data.Length
    requires Raises(data[..], before, after, shift) && Holds(table[..], before)
    modifies table
    ensures Holds(table[..], after)
  {
    var lastDp: U8 := 0;
    var i: nat := 0;
    while i + SIMD_STRIDE <= maxIndex
      invariant i <= maxIndex
      invariant lastDp as nat == Run(data[..], shift, i)
      invariant Between(table[..], before, after, i + 1)
    {
      lastDp := ScanBlock(data, table, shift, i, lastDp, before, after);
      i := i + SIMD_STRIDE;
    }
    while i < maxIndex
      invariant i <= maxIndex
      invariant lastDp as nat == Run(data[..], shift, i)
      invariant Between(table[..], before, after, i + 1)
    {
      lastDp := Lane(data, table, shift, i, data[i] == data[i + shift], lastDp, before, after);
      i := i + 1;
    }
    TableDone(data[..], table[..], before, after, i + 1, shift);
  }

  /** The table of the longest repeats at shifts up to depth. */
  method FillTableAvx(data: array<Frame>, depth: nat) returns (table: array<U8>, ghost lens: seq<nat>)
    requires 2 <= data.Length <= MAX_UNWIND_DEPTH && depth > 0
    ensures fresh(table) && table.Length == MAX_UNWIND_DEPTH
    ensures AreLengths(data[..], depth, lens) && |lens| == data.Length && Holds(table[..], lens) && Within(lens)
  {
    ghost var d := data[..];
    table := new U8[MAX_UNWIND_DEPTH](_ => 0);
    lens := NoLengths(d, table[..]);
    var shift: nat := 1;
    while shift <= depth
      invariant 1 <= shift <= depth + 1 && shift <= data.Length
      invariant data[..] == d
      invariant Holds(table[..], lens) && AreLengths(d, shift - 1, lens)
    {
      var maxIndex: nat := data.Length - shift;
      if maxIndex == 0 {
        break;
      }
      ghost var next := NextLengths(d, shift, lens);
      ScanShiftAvx(data, table, shift, maxIndex, lens, next);
      lens := next;
      shift := shift + 1;
    }
    lens := LastLengths(d, table[..], shift - 1, lens, depth);
  }

  method CollapseRecursionAvx(data: array<Frame>, depth: nat) returns (size: nat)
    requires data.Length <= MAX_UNWIND_DEPTH
    modifies data
    ensures size <= data.Length
    ensures data[..size] == Collapsed(old(data[..]), depth)
    ensures data[size..] == old(data[size..])
  {
    if depth == 0 || data.Length < 2 {
      assert data[..data.Length] == data[..];
      return data.Length;
    }
    var table, lens := FillTableAvx(data, depth);
    size := Compact(data, table, lens);
  }

  // ----- the naive form

  /** The last s kept frames are repeated at position cur of the trace. */
  predicate Repeats(kept: seq<Frame>, d: seq<Frame>, cur: nat, s: nat) {
    1 <= s <= |kept| && cur + s <= |d| && kept[|kept| - s..] == d[cur..cur + s]
  }

  /** The shortest repeated block of s to depth frames; 0 when there is none. */
  function Shortest(kept: seq<Frame>, d: seq<Frame>, cur: nat, s: nat, depth: nat): (r: nat)
    ensures r > 0 ==> s <= r <= depth && Repeats(kept, d, cur, r)
    decreases depth + 1 - s
  {
    if s > depth then 0 else if Repeats(kept, d, cur, s) then s else Shortest(kept, d, cur, s + 1, depth)
  }

  function NaiveFrom(kept: seq<Frame>, d: seq<Frame>, cur: nat, depth: nat): seq<Frame>
    decreases |d| - cur
  {
    if cur >= |d| then kept
    else
      var s := Shortest(kept, d, cur, 1, depth);
      if s > 0 then NaiveFrom(kept, d, cur + s, depth) else NaiveFrom(kept + [d[cur]], d, cur + 1, depth)
  }

  function NaiveCollapsed(d: seq<Frame>, depth: nat): seq<Frame>
    requires |d| > 0
  {
    NaiveFrom(d[..1], d, 1, depth)
  }

  lemma {:induction false} NoneLonger(kept: seq<Frame>, d: seq<Frame>, cur: nat, s: nat, depth: nat)
    requires |d| < cur + s || |kept| < s
    ensures Shortest(kept, d, cur, s, depth) == 0
    decreases depth + 1 - s
  {
    if s <= depth {
      NoneLonger(kept, d, cur, s + 1, depth);
    }
  }

  lemma OneMore(a: seq<Frame>, b: seq<Frame>, p: nat)
    requires p < |a| == |b| && a[..p] == b[..p] && a[p] == b[p]
    ensures a[..p + 1] == b[..p + 1]
  {
    assert a[..p + 1] == a[..p] + [a[p]] && b[..p + 1] == b[..p] + [b[p]];
  }

  method MatchSpan(data: array<Frame>, left: nat, cur: nat, s: nat) returns (matched: bool)
    requires 1 <= s <= left + 1 && left < cur && cur + s <= data.Length
    ensures matched == Repeats(data[..left + 1], data[..], cur, s)
  {
    ghost var a, b := data[..left + 1][left + 1 - s..], data[..][cur..cur + s];
    var p: nat := 0;
    while p < s
      invariant p <= s
      invariant |a| == |b| == s && a[..p] == b[..p]
    {
      assert data[cur + p] == b[p] && data[left + 1 - s + p] == a[p];
      if data[cur + p] != data[left + 1 - s + p] {
        return false;
      }
      OneMore(a, b, p);
      p := p + 1;
    }
    assert a[..s] == a && b[..s] == b;
    return true;
  }

  lemma ShortestMiss(kept: seq<Frame>, d: seq<Frame>, cur: nat, s: nat, depth: nat)
    requires s <= depth && !Repeats(kept, d, cur, s)
    ensures Shortest(kept, d, cur, s, depth) == Shortest(kept, d, cur, s + 1, depth)
  {
  }

  lemma ShortestHit(kept: seq<Frame>, d: seq<Frame>, cur: nat, s: nat, depth: nat)
    requires s <= depth && Repeats(kept, d, cur, s)
    ensures Shortest(kept, d, cur, s, depth) == s
  {
  }

  lemma SameSpan(now: seq<Frame>, d: seq<Frame>, left: nat, cur: nat, s: nat)
    requires |now| == |d| && left < cur && cur + s <= |d| && now[left + 1..] == d[left + 1..]
    ensures now[cur..cur + s] == d[cur..cur + s]
  {
    forall j | cur <= j < cur + s ensures now[j] == d[j] {
      assert now[left + 1..][j - left - 1] == d[left + 1..][j - left - 1];
    }
  }

  /** The kept frames are data[..left + 1]; from position cur on data still is the trace d. */
  method FindCycle(data: array<Frame>, left: nat, cur: nat, depth: nat, ghost d: seq<Frame>) returns (cycleSize: nat)
    requires left < cur < data.Length == |d| && data[left + 1..] == d[left + 1..]
    ensures cycleSize == Shortest(data[..left + 1], d, cur, 1, depth)
  {
    ghost var kept := data[..left + 1];
    var s: nat := 1;
    while s <= depth && cur + s <= data.Length
      invariant 1 <= s <= depth + 1
      invariant Shortest(kept, d, cur, 1, depth) == Shortest(kept, d, cur, s, depth)
    {
      if s > left + 1 {
        NoneLonger(kept, d, cur, s, depth);
        return 0;
      }
      var matched := MatchSpan(data, left, cur, s);
      assert data[..][left + 1..] == data[left + 1..];
      SameSpan(data[..], d, left, cur, s);
      if matched {
        ShortestHit(kept, d, cur, s, depth);
        return s;
      }
      ShortestMiss(kept, d, cur, s, depth);
      s := s + 1;
    }
    if s <= depth {
      NoneLonger(kept, d, cur, s, depth);
    }
    return 0;
  }

  lemma NaiveSkips(kept: seq<Frame>, d: seq<Frame>, cur: nat, depth: nat, s: nat, next: nat)
    requires cur < |d| && s == Shortest(kept, d, cur, 1, depth) && s > 0 && next == cur + s
    ensures cur < next <= |d| && NaiveFrom(kept, d, cur, depth) == NaiveFrom(kept, d, next, depth)
  {
  }

  lemma NaiveEnds(kept: seq<Frame>, d: seq<Frame>, cur: nat, depth: nat)
    requires cur >= |d|
    ensures NaiveFrom(kept, d, cur, depth) == kept
  {
  }

  lemma NaiveKeeps(kept: seq<Frame>, d: seq<Frame>, cur: nat, depth: nat, more: seq<Frame>, next: nat)
    requires cur < |d| && 0 == Shortest(kept, d, cur, 1, depth) && next == cur + 1 && more == kept + [d[cur]]
    ensures NaiveFrom(kept, d, cur, depth) == NaiveFrom(more, d, next, depth)
  {
  }

  /** What is kept so far, and from where on the trace is still to be read. */
  ghost predicate Collapsing(d: seq<Frame>, now: seq<Frame>, left: nat, cur: nat, depth: nat, goal: seq<Frame>) {
    && left < cur <= |d| == |now| && now[left + 1..] == d[left + 1..]
    && NaiveFrom(now[..left + 1], d, cur, depth) == goal
  }

  lemma CollapsingSkips(d: seq<Frame>, now: seq<Frame>, left: nat, cur: nat, depth: nat, goal: seq<Frame>, s: nat,
                        next: nat)
    requires cur < |d| && Collapsing(d, now, left, cur, depth, goal) && next == cur + s
    requires s == Shortest(now[..left + 1], d, cur, 1, depth) && s > 0
    ensures Collapsing(d, now, left, next, depth, goal)
  {
    NaiveSkips(now[..left + 1], d, cur, depth, s, next);
  }

  lemma CollapsingKeeps(d: seq<Frame>, now: seq<Frame>, left: nat, cur: nat, depth: nat, goal: seq<Frame>,
                        after: seq<Frame>, next: nat)
    requires cur < |d| && Collapsing(d, now, left, cur, depth, goal) && next == cur + 1
    requires 0 == Shortest(now[..left + 1], d, cur, 1, depth) && after == now[left + 1 := now[cur]]
    ensures Collapsing(d, after, left + 1, next, depth, goal)
  {
    MovesUp(d, now, after, left, cur);
    NaiveKeeps(now[..left + 1], d, cur, depth, after[..left + 2], next);
  }

  method NaiveStep(data: array<Frame>, left: nat, cur: nat, depth: nat, ghost d: seq<Frame>, ghost goal: seq<Frame>)
    returns (left': nat, cur': nat)
    requires cur < data.Length && Collapsing(d, data[..], left, cur, depth, goal)
    modifies data
    ensures cur < cur' && Collapsing(d, data[..], left', cur', depth, goal)
  {
    ghost var now := data[..];
    assert data[left + 1..] == now[left + 1..] && data[..left + 1] == now[..left + 1];
    var cycleSize := FindCycle(data, left, cur, depth, d);
    if cycleSize > 0 {
      left', cur' := left, cur + cycleSize;
      CollapsingSkips(d, now, left, cur, depth, goal, cycleSize, cur');
    } else {
      left', cur' := left + 1, cur + 1;
      CollapsingKeeps(d, now, left, cur, depth, goal, now[left + 1 := now[cur]], cur');
      data[left'] := data[cur];
      assert data[..] == now[left + 1 := now[cur]];
    }
  }

  method CollapseNonempty(data: array<Frame>, depth: nat) returns (size: nat)
    requires data.Length > 0
    modifies data
    ensures size <= data.Length
    ensures data[..size] == NaiveCollapsed(old(data[..]), depth)
    ensures data[size..] == old(data[size..])
  {
    ghost var d := data[..];
    ghost var goal := NaiveCollapsed(d, depth);
    var left: nat := 0;
    var cur: nat := 1;
    while cur < data.Length
      invariant Collapsing(d, data[..], left, cur, depth, goal)
    {
      left, cur := NaiveStep(data, left, cur, depth, d, goal);
    }
    size := left + 1;
  }

  /** On an empty trace the loop is never entered and the answer is 1, one more than there are frames. */
  method CollapseRecursionNaive(data: array<Frame>, depth: nat) returns (size: nat)
    modifies data
    ensures data.Length == 0 ==> size == 1
    ensures data.Length > 0 ==>
      && size <= data.Length
      && data[..size] == NaiveCollapsed(old(data[..]), depth)
      && data[size..] == old(data[size..])
  {
    if data.Length == 0 {
      return 1;
    }
    size := CollapseNonempty(data, depth);
  }
}
