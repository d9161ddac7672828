/** Decoding undoes encoding, for every input of admissible length. */
module CodecRoundTrip {
  import opened Bits
  import opened Codec

  // ----- the bits of the encoded form

  lemma PackedBitBack(ws: seq<Word>, a: nat, bits: seq<bool>, j: nat, i: nat, q: nat)
    requires a + j < |ws| && ws[a + j] == PackedWord(bits, j) && i < 32 && q == 32 * j + i < |bits|
    ensures 32 * a + q < |Flat(ws)| && Flat(ws)[32 * a + q] == bits[q]
  {
    BitAt(ws, a + j, i, 32 * a + q);
  }

  lemma PackedBits(ws: seq<Word>, a: nat, p: nat, bits: seq<bool>, pack: seq<Word>)
    requires pack == Pack(bits) && a + |pack| <= |ws| && ws[a..a + |pack|] == pack && p == 32 * a
    ensures p + |bits| <= |Flat(ws)| && Flat(ws)[p..p + |bits|] == bits
  {
    var flat := Flat(ws);
    forall j | 0 <= j < |pack| ensures ws[a + j] == PackedWord(bits, j) {
      assert ws[a..a + |pack|][j] == pack[j];
    }
    forall q | 0 <= q < |bits| ensures flat[p + q] == bits[q] {
      var j, i := q / 32, q % 32;
      PackedBitBack(ws, a, bits, j, i, q);
    }
  }

  lemma Parts(first: Word, c: seq<Word>, d: seq<Word>, m: nat)
    requires m == 1 + |c|
    ensures var ws := [first] + c + d;
      && |ws| == m + |d|
      && ws[0] == first && ws[1..1 + |c|] == c && ws[m..m + |d|] == d
  {
  }

  ghost predicate HoldsStreams(flat: seq<bool>, base: nat, c: seq<bool>, d: seq<bool>) {
    && 32 + |c| <= |flat| && flat[32..32 + |c|] == c
    && base + |d| <= |flat| && flat[base..base + |d|] == d
  }

  lemma PackedStreams(ws: seq<Word>, first: Word, c: seq<bool>, d: seq<bool>, base: nat)
    requires ws == [first] + Pack(c) + Pack(d) && base == 32 * (1 + Words(|c|))
    ensures HoldsStreams(Flat(ws), base, c, d)
  {
    var x, y := Pack(c), Pack(d);
    var m := 1 + |x|;
    Parts(first, x, y, m);
    PackedBits(ws, 1, 32, c, x);
    PackedBits(ws, m, base, d, y);
  }

  lemma EncodedStreams(xs: seq<U64>, base: nat)
    requires base == 32 * (1 + Words(4 * |xs|))
    ensures HoldsStreams(Flat(Encoded(xs)), base, Control(xs), Data(xs))
  {
    PackedStreams(Encoded(xs), ToBits(|xs|, 32), Control(xs), Data(xs), base);
  }

  // ----- the streams of a prefix are prefixes of the streams

  lemma {:induction false} StreamPrefixes(xs: seq<U64>, i: nat)
    requires i <= |xs|
    ensures Control(xs[..i]) <= Control(xs) && Data(xs[..i]) <= Data(xs)
    decreases |xs|
  {
    if i == |xs| {
      assert xs[..i] == xs;
    } else {
      var init := xs[..|xs| - 1];
      StreamPrefixes(init, i);
      assert init[..i] == xs[..i];
      assert Control(init) <= Control(xs) && Data(init) <= Data(xs);
    }
  }

  // ----- reading back

  lemma ReadsBack(flat: seq<bool>, pc: nat, pd: nat, value: Word)
    requires pc + 2 <= |flat| && flat[pc..pc + 2] == ControlOf(value)
    requires pd + |DataOf(value)| <= |flat| && flat[pd..pd + |DataOf(value)|] == DataOf(value)
    ensures ReadHalf(flat, pc, pd) == Half(value, pd + |DataOf(value)|)
  {
    assert Pow2(2) == 4;
    ValOfBits(Code(value), 2);
    WidthIsEnough(value);
    if Width(Code(value)) == 0 {
      assert DataOf(value) == [];
      assert [] + Falses(32) == ZEROS;
    }
  }

  lemma JoinUndoesSplit(d: U64)
    ensures Join(Low(d), High(d)) == d
  {
    PowersOfTwo();
    ValOfBits(d, 64);
    assert Low(d) + High(d) == ToBits(d, 64);
  }

  lemma SumUndoesDiff(x: U64, prev: U64)
    ensures Sum(prev, Diff(x, prev)) == x
  {
  }

  // What follows a known part of a string
  lemma SliceOfPrefix(flat: seq<bool>, p: nat, whole: seq<bool>, part: seq<bool>, more: seq<bool>)
    requires p + |whole| <= |flat| && flat[p..p + |whole|] == whole && part + more <= whole
    ensures p + |part| + |more| <= |flat| && flat[p + |part|..p + |part| + |more|] == more
  {
    var n := |part| + |more|;
    assert whole[..n] == part + more;
    assert flat[p + |part|..p + n] == flat[p..p + |whole|][|part|..n];
    assert whole[|part|..n] == whole[..n][|part|..];
  }

  // A value is read back from behind the parts of the streams written before it
  lemma HalfReadsBack(flat: seq<bool>, base: nat, cs: seq<bool>, ds: seq<bool>, c: seq<bool>, d: seq<bool>, value: Word,
                      pc: nat, pd: nat, next: nat)
    requires HoldsStreams(flat, base, cs, ds)
    requires c + ControlOf(value) <= cs && d + DataOf(value) <= ds
    requires pc == 32 + |c| && pd == base + |d| && next == pd + |DataOf(value)|
    ensures ReadHalf(flat, pc, pd) == Half(value, next)
  {
    SliceOfPrefix(flat, 32, cs, c, ControlOf(value));
    SliceOfPrefix(flat, base, ds, d, DataOf(value));
    ReadsBack(flat, pc, pd, value);
  }

  lemma ElementReadsBack(flat: seq<bool>, pc: nat, pc2: nat, pc4: nat, pd: nat, mid: nat, next: nat,
                         prev: U64, x: U64, count: nat, left: nat, rest: seq<U64>)
    requires pc2 == pc + 2 && pc4 == pc + 4 && left == count - 1
    requires ReadHalf(flat, pc, pd) == Half(Low(Diff(x, prev)), mid)
    requires ReadHalf(flat, pc2, mid) == Half(High(Diff(x, prev)), next)
    requires Elements(flat, pc4, next, x, left) == Good(rest)
    ensures Elements(flat, pc, pd, prev, count) == Good([x] + rest)
  {
    JoinUndoesSplit(Diff(x, prev));
    SumUndoesDiff(x, prev);
  }

  lemma Chop(a: seq<bool>, b: seq<bool>, s: seq<bool>)
    requires a + b <= s
    ensures a <= s
  {
    assert a == (a + b)[..|a|];
  }

  // The next element is read back from behind the streams c and d of the elements before it
  lemma NextReadsBack(flat: seq<bool>, base: nat, cs: seq<bool>, ds: seq<bool>, c: seq<bool>, d: seq<bool>,
                      prev: U64, x: U64, pc: nat, pc4: nat, pd: nat, next: nat, count: nat, left: nat, rest: seq<U64>)
    requires HoldsStreams(flat, base, cs, ds)
    requires var e := Diff(x, prev);
      && c + ControlOf(Low(e)) + ControlOf(High(e)) <= cs
      && d + DataOf(Low(e)) + DataOf(High(e)) <= ds
      && next == pd + |DataOf(Low(e))| + |DataOf(High(e))|
    requires pc == 32 + |c| && pd == base + |d| && pc4 == pc + 4 && left == count - 1
    requires Elements(flat, pc4, next, x, left) == Good(rest)
    ensures Elements(flat, pc, pd, prev, count) == Good([x] + rest)
  {
    var e := Diff(x, prev);
    var c1, d1 := c + ControlOf(Low(e)), d + DataOf(Low(e));
    Chop(c1, ControlOf(High(e)), cs);
    Chop(d1, DataOf(High(e)), ds);
    var mid := pd + |DataOf(Low(e))|;
    HalfReadsBack(flat, base, cs, ds, c, d, Low(e), pc, pd, mid);
    HalfReadsBack(flat, base, cs, ds, c1, d1, High(e), pc + 2, mid, next);
    ElementReadsBack(flat, pc, pc + 2, pc4, pd, mid, next, prev, x, count, left, rest);
  }

  // Element i leads from the streams before it to those behind it, which are part of the whole streams
  ghost predicate Link(xs: seq<U64>, cs: seq<seq<bool>>, ds: seq<seq<bool>>, i: nat)
    requires i < |xs| && |cs| == |ds| == |xs| + 1
  {
    var e := Diff(xs[i], Before(xs, i));
    && cs[i + 1] == cs[i] + ControlOf(Low(e)) + ControlOf(High(e)) && cs[i + 1] <= cs[|xs|]
    && ds[i + 1] == ds[i] + DataOf(Low(e)) + DataOf(High(e)) && ds[i + 1] <= ds[|xs|]
  }

  ghost predicate Linked(xs: seq<U64>, cs: seq<seq<bool>>, ds: seq<seq<bool>>) {
    && |cs| == |ds| == |xs| + 1
    && forall i {:trigger Link(xs, cs, ds, i)} :: 0 <= i < |xs| ==> Link(xs, cs, ds, i)
  }

  lemma ElementStreams(xs: seq<U64>, i: nat, x: U64, prev: U64, c: seq<bool>, c2: seq<bool>, d: seq<bool>,
                       d2: seq<bool>)
    requires i < |xs| && x == xs[i] && prev == Before(xs, i)
    requires c == Control(xs[..i]) && c2 == Control(xs[..i + 1]) && d == Data(xs[..i]) && d2 == Data(xs[..i + 1])
    ensures var e := Diff(x, prev);
      && c2 == c + ControlOf(Low(e)) + ControlOf(High(e))
      && d2 == d + DataOf(Low(e)) + DataOf(High(e))
  {
    assert xs[..i + 1] == xs[..i] + [xs[i]];
    Extend(xs[..i], x);
    assert Prev(xs[..i]) == prev;
  }

  lemma StreamsLink(xs: seq<U64>, cs: seq<seq<bool>>, ds: seq<seq<bool>>, i: nat)
    requires i < |xs| && |cs| == |ds| == |xs| + 1
    requires cs[i] == Control(xs[..i]) && cs[i + 1] == Control(xs[..i + 1]) && cs[|xs|] == Control(xs)
    requires ds[i] == Data(xs[..i]) && ds[i + 1] == Data(xs[..i + 1]) && ds[|xs|] == Data(xs)
    ensures Link(xs, cs, ds, i)
  {
    StreamPrefixes(xs, i + 1);
    ElementStreams(xs, i, xs[i], Before(xs, i), cs[i], cs[i + 1], ds[i], ds[i + 1]);
  }

  // The streams of all prefixes
  lemma PrefixStreams(xs: seq<U64>) returns (cs: seq<seq<bool>>, ds: seq<seq<bool>>)
    ensures Linked(xs, cs, ds) && cs[0] == [] && ds[0] == [] && cs[|xs|] == Control(xs) && ds[|xs|] == Data(xs)
  {
    cs := seq(|xs| + 1, i requires 0 <= i <= |xs| => Control(xs[..i]));
    ds := seq(|xs| + 1, i requires 0 <= i <= |xs| => Data(xs[..i]));
    assert xs[..|xs|] == xs;
    forall i | 0 <= i < |xs| ensures Link(xs, cs, ds, i) {
      StreamsLink(xs, cs, ds, i);
    }
  }

  lemma {:induction false} RestReadsBack(flat: seq<bool>, base: nat, xs: seq<U64>, cs: seq<seq<bool>>,
                                         ds: seq<seq<bool>>,
                                         i: nat, pc: nat, pd: nat, prev: U64, count: nat)
    requires Linked(xs, cs, ds) && HoldsStreams(flat, base, cs[|xs|], ds[|xs|]) && i <= |xs| && count == |xs| - i
    requires pc == 32 + |cs[i]| && pd == base + |ds[i]| && prev == Before(xs, i)
    ensures Elements(flat, pc, pd, prev, count) == Good(xs[i..])
    decreases count
  {
    if i < |xs| {
      assert Link(xs, cs, ds, i);
      var pc4, next := 32 + |cs[i + 1]|, base + |ds[i + 1]|;
      RestReadsBack(flat, base, xs, cs, ds, i + 1, pc4, next, xs[i], count - 1);
      NextReadsBack(flat, base, cs[|xs|], ds[|xs|], cs[i], ds[i], prev, xs[i],
                    pc, pc4, pd, next, count, count - 1, xs[i + 1..]);
      assert [xs[i]] + xs[i + 1..] == xs[i..];
    }
  }

  lemma DecodedIs(words: seq<Word>, total: nat, xs: seq<U64>)
    requires words != [] && Val(words[0]) == total
    requires Elements(Flat(words), 32, 32 * (1 + Words(4 * total)), 0, total) == Good(xs)
    ensures Decoded(words) == Good(xs)
  {
  }

  // Decompressing a compressed sequence gives the sequence back
  lemma RoundTrip(xs: seq<U64>)
    requires |xs| < MOD32
    ensures Decoded(Encoded(xs)) == Good(xs)
  {
    var base := 32 * (1 + Words(4 * |xs|));
    PowersOfTwo();
    ValOfBits(|xs|, 32);
    EncodedStreams(xs, base);
    var cs, ds := PrefixStreams(xs);
    RestReadsBack(Flat(Encoded(xs)), base, xs, cs, ds, 0, 32, base, 0, |xs|);
    DecodedIs(Encoded(xs), |xs|, xs);
  }

  // Different sequences have different compressed forms
  lemma EncodingIsInjective(xs: seq<U64>, ys: seq<U64>)
    requires |xs| < MOD32 && |ys| < MOD32 && Encoded(xs) == Encoded(ys)
    ensures xs == ys
  {
    RoundTrip(xs);
    RoundTrip(ys);
  }

  // Compress, then decompress
  method Transcode(xs: seq<U64>, buffer: array<Word>, out: array<U64>) returns (total: nat)
    requires Admissible(|xs|) && MaxExpectedSize(|xs|) <= buffer.Length && |xs| <= out.Length
    modifies buffer, out
    ensures total == |xs| && out[..total] == xs
  {
    var size := Compress(xs, buffer);
    RoundTrip(xs);
    total := Decompress(buffer[..size], out);
  }
}
