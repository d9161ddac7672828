/**
 The bit-packed codec for stack traces: differences of neighbouring 64-bit
 words modulo 2^64, each split into two 32-bit halves that are stored with 0,
 16, 24 or 32 bits. A stream of 2-bit size codes and a stream of data bits
 share one buffer.
 */
module Codec {
  import opened Bits

  type U64 = n: nat | n < 0x1_0000_0000_0000_0000

  const MOD32: nat := 0x1_0000_0000
  const MOD64: nat := 0x1_0000_0000_0000_0000

  // ----- the format

  function Code(value: Word): (r: nat)
    ensures r < 4
  {
    if Val(value) == 0 then 0 else if Val(value) < 0x1_0000 then 1 else if Val(value) < 0x100_0000 then 2 else 3
  }

  function Width(code: nat): (r: nat)
    requires code < 4
    ensures r <= 32
  {
    match code
    case 0 => 0
    case 1 => 16
    case 2 => 24
    case 3 => 32
  }

  ghost function ControlOf(value: Word): (r: seq<bool>)
    ensures |r| == 2
  {
    ToBits(Code(value), 2)
  }

  ghost function DataOf(value: Word): (r: seq<bool>)
    ensures |r| == Width(Code(value))
  {
    value[..Width(Code(value))]
  }

  lemma PowersOfTwo()
    ensures Pow2(16) == 0x1_0000 && Pow2(24) == 0x100_0000 && Pow2(32) == 0x1_0000_0000
    ensures Pow2(64) == 0x1_0000_0000_0000_0000
  {
    assert Pow2(8) == 256;
    assert Pow2(12) == 4096;
    assert Pow2(16) == 65536;
    assert Pow2(20) == 1048576;
    assert Pow2(24) == 16777216;
    assert Pow2(28) == 268435456;
    assert Pow2(32) == 4294967296;
    assert Pow2(40) == 0x100_0000_0000;
    assert Pow2(48) == 0x1_0000_0000_0000;
    assert Pow2(56) == 0x100_0000_0000_0000;
  }

  // The bits that are not stored are zero
  lemma WidthIsEnough(value: Word)
    ensures DataOf(value) + Falses(32 - Width(Code(value))) == value
  {
    var k := Width(Code(value));
    assert Pow2(16) == 0x1_0000 && Pow2(24) == 0x100_0000 by { PowersOfTwo(); }
    if Code(value) == 0 {
      ZeroBits(value);
    } else if k < 32 {
      HighBits(value, k);
    }
    assert value == value[..k] + value[k..];
  }

  // And no narrower of the widths would do
  lemma WidthIsLeast(value: Word)
    ensures Width(Code(value)) == 0 <==> Val(value) == 0
    ensures Width(Code(value)) <= 16 <==> Val(value) < Pow2(16)
    ensures Width(Code(value)) <= 24 <==> Val(value) < Pow2(24)
  {
    PowersOfTwo();
  }

  function Diff(cur: U64, prev: U64): (r: U64) {
    if cur >= prev then cur - prev else cur + MOD64 - prev
  }

  function Sum(prev: U64, diff: U64): (r: U64) {
    if prev + diff >= MOD64 then prev + diff - MOD64 else prev + diff
  }

  // The two 32-bit halves of a 64-bit word
  function Low(diff: U64): (r: Word) { ToBits(diff, 64)[..32] }

  function High(diff: U64): (r: Word) { ToBits(diff, 64)[32..] }

  function Prev(xs: seq<U64>): (r: U64) {
    if xs == [] then 0 else xs[|xs| - 1]
  }

  ghost function Control(xs: seq<U64>): (r: seq<bool>)
    ensures |r| == 4 * |xs|
  {
    if xs == [] then []
    else
      var init, x := xs[..|xs| - 1], xs[|xs| - 1];
      var d := Diff(x, Prev(init));
      Control(init) + ControlOf(Low(d)) + ControlOf(High(d))
  }

  ghost function Data(xs: seq<U64>): (r: seq<bool>)
    ensures |r| <= 64 * |xs|
  {
    if xs == [] then []
    else
      var init, x := xs[..|xs| - 1], xs[|xs| - 1];
      var d := Diff(x, Prev(init));
      Data(init) + DataOf(Low(d)) + DataOf(High(d))
  }

  // How many words hold n bits
  function Words(n: nat): (r: nat)
    ensures n <= 32 * r < n + 32
  {
    if n == 0 then 0 else if n <= 32 then 1 else 1 + Words(n - 32)
  }

  function ControlBlockSize(size: nat): (r: nat)
    ensures r == Words(4 * size)
  {
    var blockSizeBits := size * 2 * 2;
    (blockSizeBits + 31) / 32
  }

  function MaxExpectedSize(size: nat): (r: nat) {
    1 + size * 2 + ControlBlockSize(size)
  }

  // Lengths for which all sizes fit into 32 bits
  predicate Admissible(size: nat) {
    MaxExpectedSize(size) < MOD32
  }

  ghost function PackedWord(bits: seq<bool>, j: nat): (r: Word) {
    seq(32, i requires 0 <= i < 32 => 32 * j + i < |bits| && bits[32 * j + i])
  }

  // A bit string in words, padded with zeros
  ghost function Pack(bits: seq<bool>): (r: seq<Word>)
    ensures |r| == Words(|bits|)
  {
    seq(Words(|bits|), j requires 0 <= j < Words(|bits|) => PackedWord(bits, j))
  }

  // The compressed form as a function of the input alone
  ghost function Encoded(xs: seq<U64>): (r: seq<Word>) {
    [ToBits(|xs|, 32)] + Pack(Control(xs)) + Pack(Data(xs))
  }

  // ----- reading and writing bits

  class BitIterator {
    var value: nat
    var bitIndex: nat
    var valuePos: nat

    predicate Valid()
      reads this
    {
      bitIndex < 32 && value == valuePos
    }

    function At(): (r: nat)
      reads this
    {
      32 * value + bitIndex
    }

    constructor ()
      ensures Valid() && At() == 0
    {
      value, bitIndex, valuePos := 0, 0, 0;
    }

    method AdvanceBytes(count: nat)
      requires Valid()
      modifies this
      ensures Valid() && bitIndex == old(bitIndex) && valuePos == old(valuePos) + count
    {
      value := value + count;
      valuePos := valuePos + count;
    }

    method AdvanceBits(count: nat)
      requires Valid() && bitIndex + count <= 32
      modifies this
      ensures Valid() && At() == old(At()) + count
    {
      bitIndex := bitIndex + count;
      if bitIndex >= 32 {
        bitIndex := 0;
        value := value + 1;
        valuePos := valuePos + 1;
      }
    }
  }

  // Writes bits that fit into the current word
  method EncodePiece(buf: array<Word>, iter: BitIterator, count: nat, value: Word)
    requires iter.Valid() && iter.value < buf.Length && iter.bitIndex + count <= 32
    modifies buf, iter
    ensures iter.Valid() && iter.At() == old(iter.At()) + count
    ensures Flat(buf[..]) == Splice(old(Flat(buf[..])), old(iter.At()), value[..count])
  {
    var word := PutBits(buf[iter.value], iter.bitIndex, count, value);
    FlatUpdate(buf[..], iter.value, iter.bitIndex, value[..count], word);
    ghost var updated := buf[..][iter.value := word];
    buf[iter.value] := word;
    assert buf[..] == updated;
    iter.AdvanceBits(count);
  }

  // The first `done` bits of the value are written, `rest` holds the others
  ghost predicate Writing(before: seq<bool>, start: nat, value: Word, done: nat, rest: Word, now: seq<bool>) {
    && done <= 32 && start + done <= |before|
    && rest == value[done..] + Falses(done)
    && now == Splice(before, start, value[..done])
  }

  lemma WritingStarts(before: seq<bool>, start: nat, value: Word)
    requires start <= |before|
    ensures Writing(before, start, value, 0, value, before)
  {
    assert value[0..] + Falses(0) == value && Splice(before, start, value[..0]) == before;
  }

  lemma WritingStep(before: seq<bool>, start: nat, value: Word, done: nat, rest: Word, now: seq<bool>, cur: nat,
                    at: nat, more: nat)
    requires Writing(before, start, value, done, rest, now)
    requires at == start + done && more == done + cur <= 32 && start + more <= |before|
    ensures Writing(before, start, value, more, ShiftRight(rest, cur), Splice(now, at, rest[..cur]))
  {
    assert value[..done] + rest[..cur] == value[..more];
    SpliceMore(before, start, value[..done], rest[..cur]);
    assert ShiftRight(rest, cur) == value[more..] + Falses(more);
  }

  // Writes the low bits of a value at the iterator, over whatever is there
  method EncodeBits(buf: array<Word>, iter: BitIterator, bitCount: nat, value: Word)
    requires iter.Valid() && bitCount <= 32 && iter.At() + bitCount <= 32 * buf.Length
    modifies buf, iter
    ensures iter.Valid() && iter.At() == old(iter.At()) + bitCount
    ensures Flat(buf[..]) == Splice(old(Flat(buf[..])), old(iter.At()), value[..bitCount])
  {
    var left: nat, rest: Word := bitCount, value;
    ghost var before, start, done: nat := Flat(buf[..]), iter.At(), 0;
    WritingStarts(before, start, value);
    while left > 0
      invariant done + left == bitCount && iter.Valid() && iter.At() == start + done
      invariant Writing(before, start, value, done, rest, Flat(buf[..]))
    {
      var room := 32 - iter.bitIndex;
      var cur: nat := if room >= left then left else room;
      ghost var at, more: nat := iter.At(), done + cur;
      WritingStep(before, start, value, done, rest, Flat(buf[..]), cur, at, more);
      EncodePiece(buf, iter, cur, rest);
      rest := ShiftRight(rest, cur);
      left := left - cur;
      done := more;
    }
  }

  // The first `decoded` bits from `start` are in the value
  ghost predicate Reading(flat: seq<bool>, start: nat, decoded: nat, value: Word) {
    && decoded <= 32 && start + decoded <= |flat|
    && value == flat[start..start + decoded] + Falses(32 - decoded)
  }

  lemma PieceRead(words: seq<Word>, j: nat, at: nat, count: nat, start: nat, bits: Word)
    requires j < |words| && at + count <= 32 && start == 32 * j + at && bits == TakeBits(words[j], at, count)
    ensures Reading(Flat(words), start, count, bits)
  {
    FlatSlice(words, j, at, count);
  }

  // Reads bits that lie in the current word
  method DecodePiece(words: seq<Word>, iter: BitIterator, count: nat) returns (bits: Word)
    requires iter.Valid() && iter.value < |words| && iter.bitIndex + count <= 32
    modifies iter
    ensures iter.Valid() && iter.At() == old(iter.At()) + count
    ensures Reading(Flat(words), old(iter.At()), count, bits)
  {
    bits := TakeBits(words[iter.value], iter.bitIndex, count);
    PieceRead(words, iter.value, iter.bitIndex, count, iter.At(), bits);
    iter.AdvanceBits(count);
  }

  lemma OrOfParts(value: Word, bits: Word, a: seq<bool>, b: seq<bool>, n: nat)
    requires n == |a| && |a| + |b| <= 32 && value == a + Falses(32 - |a|) && bits == b + Falses(32 - |b|)
    ensures Or(value, ShiftLeft(bits, n)) == a + b + Falses(32 - |a| - |b|)
  {
  }

  lemma Rejoin(s: seq<bool>, p: nat, a: nat, b: nat)
    requires p + a + b <= |s|
    ensures s[p..p + a + b] == s[p..p + a] + s[p + a..p + a + b]
  {
  }

  lemma ReadingStep(flat: seq<bool>, start: nat, decoded: nat, value: Word, cur: nat, bits: Word, at: nat, more: nat)
    requires at == start + decoded && more == decoded + cur <= 32
    requires Reading(flat, start, decoded, value) && Reading(flat, at, cur, bits)
    ensures Reading(flat, start, more, Or(value, ShiftLeft(bits, decoded)))
  {
    Rejoin(flat, start, decoded, cur);
    OrOfParts(value, bits, flat[start..at], flat[at..at + cur], decoded);
  }

  // Reads bits at the iterator into the low bits of a value
  method DecodeBits(words: seq<Word>, iter: BitIterator, bitCount: nat) returns (value: Word)
    requires iter.Valid() && bitCount <= 32 && iter.At() + bitCount <= 32 * |words|
    modifies iter
    ensures iter.Valid() && iter.At() == old(iter.At()) + bitCount
    ensures Reading(Flat(words), old(iter.At()), bitCount, value)
  {
    value := ZEROS;
    var left: nat, decoded: nat := bitCount, 0;
    ghost var start, flat := iter.At(), Flat(words);
    while left > 0
      invariant decoded + left == bitCount && iter.Valid() && iter.At() == start + decoded
      invariant Reading(flat, start, decoded, value)
    {
      var room := 32 - iter.bitIndex;
      var cur: nat := if room >= left then left else room;
      ghost var at := iter.At();
      var bits := DecodePiece(words, iter, cur);
      var more: nat := decoded + cur;
      ReadingStep(flat, start, decoded, value, cur, bits, at, more);
      value := Or(value, ShiftLeft(bits, decoded));
      decoded := more;
      left := left - cur;
    }
  }

  // ----- compressing

  lemma {:induction false} ToBitsPrefix(n: nat, k: nat, m: nat)
    requires m <= k
    ensures ToBits(n, k)[..m] == ToBits(n, m)
  {
    if m > 0 {
      ToBitsPrefix(n / 2, k - 1, m - 1);
      assert ToBits(n, k)[..m] == [n % 2 == 1] + ToBits(n / 2, k - 1)[..m - 1];
    }
  }

  // Writes the size code of a value to the control stream and its bits to the data stream
  method Encode(buf: array<Word>, control: BitIterator, data: BitIterator, value: Word)
    requires control != data && control.Valid() && data.Valid()
    requires control.At() + 2 <= 32 * buf.Length && data.At() + 32 <= 32 * buf.Length
    modifies buf, control, data
    ensures control.Valid() && data.Valid()
    ensures control.At() == old(control.At()) + 2 && data.At() == old(data.At()) + |DataOf(value)|
    ensures Flat(buf[..])
      == Splice(Splice(old(Flat(buf[..])), old(control.At()), ControlOf(value)), old(data.At()), DataOf(value))
  {
    var code := Code(value);
    ToBitsPrefix(code, 32, 2);
    EncodeBits(buf, control, 2, ToBits(code, 32));
    var bitCount := Width(code);
    ghost var middle := Flat(buf[..]);
    if bitCount > 0 {
      EncodeBits(buf, data, bitCount, value);
    } else {
      assert DataOf(value) == [];
      assert Splice(middle, data.At(), []) == middle;
    }
  }

  // The buffer holds the size word, then control bits from bit 32, and data bits from `base`
  ghost predicate Streams(flat: seq<bool>, size: seq<bool>, base: nat, c: seq<bool>, d: seq<bool>) {
    && |size| == 32 && 32 + |c| <= base && base + |d| <= |flat|
    && flat[0..32] == size
    && flat[32..32 + |c|] == c
    && flat[base..base + |d|] == d
  }

  lemma SpliceAtEnd(s: seq<bool>, p: nat, a: seq<bool>, b: seq<bool>)
    requires p + |a| + |b| <= |s| && s[p..p + |a|] == a
    ensures Splice(s, p + |a|, b)[p..p + |a| + |b|] == a + b
  {
    SpliceOutside(s, p + |a|, b, p, |a|);
    SpliceInside(s, p + |a|, b);
    Rejoin(Splice(s, p + |a|, b), p, |a|, |b|);
  }

  // Adding control bits and data bits at the ends of the two streams
  lemma StreamStep(flat: seq<bool>, size: seq<bool>, base: nat, c: seq<bool>, d: seq<bool>, c': seq<bool>,
                   d': seq<bool>)
    requires Streams(flat, size, base, c, d)
    requires 32 + |c| + |c'| <= base && base + |d| + |d'| <= |flat|
    ensures Streams(Splice(Splice(flat, 32 + |c|, c'), base + |d|, d'), size, base, c + c', d + d')
  {
    var mid := Splice(flat, 32 + |c|, c');
    SpliceOutside(flat, 32 + |c|, c', 0, 32);
    SpliceOutside(flat, 32 + |c|, c', base, |d|);
    SpliceAtEnd(flat, 32, c, c');
    SpliceOutside(mid, base + |d|, d', 0, 32);
    SpliceOutside(mid, base + |d|, d', 32, |c| + |c'|);
    SpliceAtEnd(mid, base, d, d');
  }

  lemma Extend(xs: seq<U64>, x: U64)
    ensures var d := Diff(x, Prev(xs));
      && Control(xs + [x]) == Control(xs) + ControlOf(Low(d)) + ControlOf(High(d))
      && Data(xs + [x]) == Data(xs) + DataOf(Low(d)) + DataOf(High(d))
  {
    assert (xs + [x])[..|xs|] == xs;
  }

  // Both streams stand at the ends of what is written
  ghost predicate Standing(buf: seq<Word>, control: BitIterator, data: BitIterator, size: seq<bool>, base: nat,
                           c: seq<bool>, d: seq<bool>)
    reads control, data
  {
    && control != data && control.Valid() && data.Valid()
    && control.At() == 32 + |c| && data.At() == base + |d|
    && Streams(Flat(buf), size, base, c, d)
  }

  method EncodeNext(buf: array<Word>, control: BitIterator, data: BitIterator, value: Word,
                    ghost size: seq<bool>, ghost base: nat, ghost c: seq<bool>, ghost d: seq<bool>)
    requires Standing(buf[..], control, data, size, base, c, d)
    requires 32 + |c| + 2 <= base && base + |d| + 32 <= 32 * buf.Length
    modifies buf, control, data
    ensures Standing(buf[..], control, data, size, base, c + ControlOf(value), d + DataOf(value))
  {
    StreamStep(Flat(buf[..]), size, base, c, d, ControlOf(value), DataOf(value));
    Encode(buf, control, data, value);
  }

  // Encodes one element of the input
  method CompressOne(buf: array<Word>, control: BitIterator, data: BitIterator, x: U64, prev: U64,
                     ghost size: seq<bool>, ghost base: nat, ghost xs: seq<U64>)
    requires prev == Prev(xs) && Standing(buf[..], control, data, size, base, Control(xs), Data(xs))
    requires 32 + 4 * (|xs| + 1) <= base && base + 64 * (|xs| + 1) <= 32 * buf.Length
    modifies buf, control, data
    ensures Standing(buf[..], control, data, size, base, Control(xs + [x]), Data(xs + [x]))
  {
    var diff := Diff(x, prev);
    var high, low := High(diff), Low(diff);
    Extend(xs, x);
    EncodeNext(buf, control, data, low, size, base, Control(xs), Data(xs));
    EncodeNext(buf, control, data, high, size, base, Control(xs) + ControlOf(low), Data(xs) + DataOf(low));
  }

  // ----- the finished buffer

  // How many zeros fill up the last word of a bit string
  ghost function Padding(bits: seq<bool>): (r: nat)
    ensures r < 32 && |bits| + r == 32 * Words(|bits|)
  {
    32 * Words(|bits|) - |bits|
  }

  lemma PaddingIs(bits: seq<bool>, a: nat, p: nat, word: nat, used: nat)
    requires p == 32 * a && p + |bits| == 32 * word + used && used < 32
    ensures Padding(bits) == if used == 0 then 0 else 32 - used
  {
  }

  // Bits from p on, followed by zeros up to the end of the last word
  ghost predicate PaddedAt(flat: seq<bool>, p: nat, bits: seq<bool>) {
    && p + |bits| + Padding(bits) <= |flat|
    && flat[p..p + |bits|] == bits
    && flat[p + |bits|..p + |bits| + Padding(bits)] == Falses(Padding(bits))
  }

  lemma SliceAt(s: seq<bool>, p: nat, n: nat, k: nat, at: nat)
    requires p + n <= |s| && k < n && at == p + k
    ensures s[p..p + n][k] == s[at]
  {
  }

  lemma PaddedBit(flat: seq<bool>, p: nat, bits: seq<bool>, pad: nat, q: nat, at: nat)
    requires p + |bits| + pad <= |flat| && flat[p..p + |bits|] == bits
    requires flat[p + |bits|..p + |bits| + pad] == Falses(pad)
    requires q < |bits| + pad && at == p + q
    ensures flat[at] == (q < |bits| && bits[q])
  {
    if q < |bits| {
      SliceAt(flat, p, |bits|, q, at);
    } else {
      SliceAt(flat, p + |bits|, pad, q - |bits|, at);
    }
  }

  lemma PackedAt(ws: seq<Word>, a: nat, p: nat, bits: seq<bool>, pad: nat, n: nat, j: nat)
    requires p == 32 * a && j < n && |bits| + pad == 32 * n && p + |bits| + pad <= |Flat(ws)|
    requires Flat(ws)[p..p + |bits|] == bits && Flat(ws)[p + |bits|..p + |bits| + pad] == Falses(pad)
    ensures a + j < |ws| && ws[a + j] == PackedWord(bits, j)
  {
    forall i | 0 <= i < 32 ensures ws[a + j][i] == PackedWord(bits, j)[i] {
      var q := 32 * j + i;
      PaddedBit(Flat(ws), p, bits, pad, q, p + q);
      BitAt(ws, a + j, i, p + q);
    }
  }

  lemma PackedWords(ws: seq<Word>, a: nat, p: nat, bits: seq<bool>, pack: seq<Word>)
    requires p == 32 * a && PaddedAt(Flat(ws), p, bits) && pack == Pack(bits)
    ensures a + |pack| <= |ws| && ws[a..a + |pack|] == pack
  {
    var n, pad := Words(|bits|), Padding(bits);
    forall j | 0 <= j < n ensures ws[a + j] == pack[j] {
      PackedAt(ws, a, p, bits, pad, n, j);
    }
  }

  lemma ThreeParts(ws: seq<Word>, first: Word, x: seq<Word>, y: seq<Word>, m: nat)
    requires |ws| > 0 && ws[0] == first && m == 1 + |x| && m + |y| <= |ws| && ws[1..m] == x && ws[m..m + |y|] == y
    ensures ws[..m + |y|] == [first] + x + y
  {
    assert ws[..m + |y|] == [ws[0]] + ws[1..m] + ws[m..m + |y|];
  }

  lemma StreamsPacked(ws: seq<Word>, first: Word, c: seq<bool>, d: seq<bool>, m: nat, base: nat)
    requires |ws| > 0 && ws[0] == first && m == 1 + Words(|c|) && base == 32 * m
    requires PaddedAt(Flat(ws), 32, c) && PaddedAt(Flat(ws), base, d)
    ensures m + Words(|d|) <= |ws| && ws[..m + Words(|d|)] == [first] + Pack(c) + Pack(d)
  {
    var x, y := Pack(c), Pack(d);
    PackedWords(ws, 1, 32, c, x);
    PackedWords(ws, m, base, d, y);
    ThreeParts(ws, first, x, y, m);
  }

  // The whole buffer up to its used size is the encoded form
  lemma BufferIsEncoded(ws: seq<Word>, xs: seq<U64>, cb: nat)
    requires |ws| > 0 && ws[0] == ToBits(|xs|, 32) && cb == Words(4 * |xs|)
    requires PaddedAt(Flat(ws), 32, Control(xs)) && PaddedAt(Flat(ws), 32 * (1 + cb), Data(xs))
    ensures |Encoded(xs)| == 1 + cb + Words(|Data(xs)|) <= |ws| && ws[..|Encoded(xs)|] == Encoded(xs)
  {
    StreamsPacked(ws, ws[0], Control(xs), Data(xs), 1 + cb, 32 * (1 + cb));
  }

  lemma PadBySplice(flat: seq<bool>, p: nat, bits: seq<bool>)
    requires p + |bits| + Padding(bits) <= |flat| && flat[p..p + |bits|] == bits
    ensures PaddedAt(Splice(flat, p + |bits|, Falses(Padding(bits))), p, bits)
  {
    SpliceOutside(flat, p + |bits|, Falses(Padding(bits)), p, |bits|);
    SpliceInside(flat, p + |bits|, Falses(Padding(bits)));
  }

  lemma PadKept(flat: seq<bool>, p: nat, bits: seq<bool>, q: nat, other: seq<bool>)
    requires PaddedAt(flat, p, bits) && q + |other| <= p
    ensures PaddedAt(Splice(flat, q, other), p, bits)
  {
    SpliceOutside(flat, q, other, p, |bits|);
    SpliceOutside(flat, q, other, p + |bits|, Padding(bits));
  }

  // The data stream is padded, the control stream is not yet
  ghost predicate DataPadded(flat: seq<bool>, size: seq<bool>, base: nat, c: seq<bool>, d: seq<bool>) {
    && |size| == 32 && 32 + |c| + Padding(c) <= base <= |flat|
    && flat[0..32] == size && flat[32..32 + |c|] == c
    && PaddedAt(flat, base, d)
  }

  lemma PadData(flat: seq<bool>, size: seq<bool>, base: nat, c: seq<bool>, d: seq<bool>, after: seq<bool>)
    requires Streams(flat, size, base, c, d)
    requires 32 + |c| + Padding(c) <= base && base + |d| + Padding(d) <= |flat|
    requires after == Splice(flat, base + |d|, Falses(Padding(d)))
    ensures DataPadded(after, size, base, c, d)
  {
    var pad := Padding(d);
    PadBySplice(flat, base, d);
    SpliceOutside(flat, base + |d|, Falses(pad), 0, 32);
    SpliceOutside(flat, base + |d|, Falses(pad), 32, |c|);
  }

  lemma PadControl(flat: seq<bool>, size: seq<bool>, base: nat, c: seq<bool>, d: seq<bool>, after: seq<bool>)
    requires DataPadded(flat, size, base, c, d)
    requires after == Splice(flat, 32 + |c|, Falses(Padding(c)))
    ensures after[0..32] == size && PaddedAt(after, 32, c) && PaddedAt(after, base, d)
  {
    var pad := Padding(c);
    PadBySplice(flat, 32, c);
    SpliceOutside(flat, 32 + |c|, Falses(pad), 0, 32);
    PadKept(flat, base, d, 32 + |c|, Falses(pad));
  }

  lemma SpliceNothing(s: seq<bool>, p: nat)
    requires p <= |s|
    ensures Splice(s, p, Falses(0)) == s
  {
  }

  // Clears the rest of a word that is used in part
  method ClearUnusedBits(buf: array<Word>, iter: BitIterator, ghost at: nat, ghost pad: nat)
    requires iter.Valid() && iter.At() == at && pad == (if iter.bitIndex == 0 then 0 else 32 - iter.bitIndex)
    requires at + pad <= 32 * buf.Length
    modifies buf
    ensures Flat(buf[..]) == Splice(old(Flat(buf[..])), at, Falses(pad))
  {
    if iter.bitIndex == 0 {
      SpliceNothing(Flat(buf[..]), iter.At());
      return;
    }
    var word := ClearBits(buf[iter.value], iter.bitIndex, 32);
    FlatUpdate(buf[..], iter.value, iter.bitIndex, Falses(pad), word);
    ghost var updated := buf[..][iter.value := word];
    buf[iter.value] := word;
    assert buf[..] == updated;
  }

  // Clears what is left of the last word of a stream
  method ClearEnd(buf: array<Word>, iter: BitIterator, ghost a: nat, ghost p: nat, ghost bits: seq<bool>)
    requires p == 32 * a && iter.Valid() && iter.At() == p + |bits| && p + |bits| + Padding(bits) <= 32 * buf.Length
    modifies buf
    ensures Flat(buf[..]) == Splice(old(Flat(buf[..])), p + |bits|, Falses(Padding(bits)))
  {
    PaddingIs(bits, a, p, iter.value, iter.bitIndex);
    ClearUnusedBits(buf, iter, p + |bits|, Padding(bits));
  }

  method ClearEnds(buf: array<Word>, control: BitIterator, data: BitIterator,
                   ghost size: seq<bool>, ghost m: nat, ghost base: nat, ghost c: seq<bool>, ghost d: seq<bool>)
    requires base == 32 * m && Standing(buf[..], control, data, size, base, c, d)
    requires 32 + |c| + Padding(c) <= base && base + |d| + Padding(d) <= 32 * buf.Length
    modifies buf
    ensures Flat(buf[..])[0..32] == size
    ensures PaddedAt(Flat(buf[..]), 32, c) && PaddedAt(Flat(buf[..]), base, d)
  {
    ghost var flat := Flat(buf[..]);
    ClearEnd(buf, data, m, base, d);
    ghost var mid := Flat(buf[..]);
    PadData(flat, size, base, c, d, mid);
    ClearEnd(buf, control, 1, 32, c);
    PadControl(mid, size, base, c, d, Flat(buf[..]));
  }

  lemma StreamsStart(ws: seq<Word>, base: nat)
    requires |ws| > 0 && 32 <= base <= 32 * |ws|
    ensures Streams(Flat(ws), ws[0], base, [], [])
  {
    FlatSlice(ws, 0, 0, 32);
  }

  // Encodes all elements of the input
  method CompressAll(xs: seq<U64>, out: array<Word>, control: BitIterator, data: BitIterator, ghost size: seq<bool>,
                     ghost base: nat)
    requires Standing(out[..], control, data, size, base, [], [])
    requires 32 + 4 * |xs| <= base && base + 64 * |xs| <= 32 * out.Length
    modifies out, control, data
    ensures Standing(out[..], control, data, size, base, Control(xs), Data(xs))
  {
    var prev: U64 := 0;
    ghost var done: seq<U64> := [];
    for i := 0 to |xs|
      invariant done == xs[..i] && prev == Prev(done)
      invariant Standing(out[..], control, data, size, base, Control(done), Data(done))
    {
      CompressOne(out, control, data, xs[i], prev, size, base, done);
      done := done + [xs[i]];
      prev := xs[i];
    }
    assert done == xs;
  }

  // The streams fit into the expected size
  lemma Room(c: seq<bool>, d: seq<bool>, n: nat, cb: nat)
    requires |c| == 4 * n && |d| <= 64 * n && cb == Words(4 * n)
    ensures 32 + |c| + Padding(c) <= 32 * (1 + cb)
    ensures 32 * (1 + cb) + |d| + Padding(d) <= 32 * (1 + 2 * n + cb)
  {
    assert Words(|d|) <= 2 * n;
  }

  lemma FirstWord(ws: seq<Word>, first: Word)
    requires |ws| > 0 && Flat(ws)[0..32] == first
    ensures ws[0] == first
  {
    FlatSlice(ws, 0, 0, 32);
  }

  lemma UsedWords(word: nat, used: nat, cb: nat, d: seq<bool>)
    requires 32 * word + used == 32 * (1 + cb) + |d| && used < 32
    ensures (if used == 0 then word else word + 1) == 1 + cb + Words(|d|)
  {
  }

  // The output is the encoded form of the input, whatever the buffer held before
  method Compress(xs: seq<U64>, out: array<Word>) returns (size: nat)
    requires Admissible(|xs|) && MaxExpectedSize(|xs|) <= out.Length
    modifies out
    ensures size == |Encoded(xs)| <= MaxExpectedSize(|xs|)
    ensures out[..size] == Encoded(xs)
  {
    var first: Word := ToBits(|xs|, 32);
    out[0] := first;
    var cb := ControlBlockSize(|xs|);
    var control := new BitIterator();
    control.AdvanceBytes(1);
    var data := new BitIterator();
    data.AdvanceBytes(1 + cb);
    StreamsStart(out[..], 32 * (1 + cb));
    CompressAll(xs, out, control, data, first, 32 * (1 + cb));
    Room(Control(xs), Data(xs), |xs|, cb);
    ClearEnds(out, control, data, first, 1 + cb, 32 * (1 + cb), Control(xs), Data(xs));
    FirstWord(out[..], first);
    BufferIsEncoded(out[..], xs, cb);
    UsedWords(data.value, data.bitIndex, cb, Data(xs));
    size := if data.bitIndex == 0 then data.valuePos else data.valuePos + 1;
  }

  // ----- decompressing

  // A value read from the two streams, or a read outside the buffer
  datatype Half = OutOfRange | Half(value: Word, next: nat)

  datatype Parsed = Bad | Good(xs: seq<U64>)

  lemma ValBound2(s: seq<bool>)
    requires |s| == 2
    ensures Val(s) < 4
  {
    ValBound(s);
    assert Pow2(2) == 4;
  }

  ghost function ReadHalf(flat: seq<bool>, pc: nat, pd: nat): (r: Half) {
    if pc + 2 > |flat| then OutOfRange
    else
      ValBound2(flat[pc..pc + 2]);
      var w := Width(Val(flat[pc..pc + 2]));
      if w == 0 then Half(ZEROS, pd)
      else if pd + w > |flat| then OutOfRange
      else Half(flat[pd..pd + w] + Falses(32 - w), pd + w)
  }

  // The 64-bit word with the two given halves
  function Join(low: Word, high: Word): (r: U64) {
    ValBound(low + high);
    PowersOfTwo();
    Val(low + high)
  }

  ghost function Elements(flat: seq<bool>, pc: nat, pd: nat, prev: U64, count: nat): (r: Parsed)
    ensures r.Good? ==> |r.xs| == count
    decreases count
  {
    if count == 0 then Good([])
    else
      var low := ReadHalf(flat, pc, pd);
      if low.OutOfRange? then Bad
      else
        var high := ReadHalf(flat, pc + 2, low.next);
        if high.OutOfRange? then Bad
        else
          var x := Sum(prev, Join(low.value, high.value));
          var rest := Elements(flat, pc + 4, high.next, x, count - 1);
          if rest.Bad? then Bad else Good([x] + rest.xs)
  }

  // What a buffer decodes to, if all reads stay inside it
  ghost function Decoded(words: seq<Word>): (r: Parsed) {
    if words == [] then Bad
    else
      var total := Val(words[0]);
      Elements(Flat(words), 32, 32 * (1 + Words(4 * total)), 0, total)
  }

  // Zeros above do not change a number
  lemma {:induction false} ValPadded(s: seq<bool>, n: nat)
    ensures Val(s + Falses(n)) == Val(s)
  {
    if s == [] {
      assert s + Falses(n) == Falses(n);
      ZeroBits(Falses(n));
    } else {
      assert (s + Falses(n))[1..] == s[1..] + Falses(n);
      ValPadded(s[1..], n);
    }
  }

  lemma CodeRead(flat: seq<bool>, pc: nat, sizeBits: Word)
    requires Reading(flat, pc, 2, sizeBits)
    ensures Val(sizeBits) == Val(flat[pc..pc + 2]) < 4
  {
    ValPadded(flat[pc..pc + 2], 30);
    ValBound2(flat[pc..pc + 2]);
  }

  // Reads one value
  method Decode(words: seq<Word>, control: BitIterator, data: BitIterator) returns (value: Word)
    requires control != data && control.Valid() && data.Valid()
    requires ReadHalf(Flat(words), control.At(), data.At()).Half?
    modifies control, data
    ensures control.Valid() && data.Valid() && control.At() == old(control.At()) + 2
    ensures ReadHalf(Flat(words), old(control.At()), old(data.At())) == Half(value, data.At())
  {
    ghost var flat, pc := Flat(words), control.At();
    var sizeBits := DecodeBits(words, control, 2);
    CodeRead(flat, pc, sizeBits);
    var w := Width(Val(sizeBits));
    value := ZEROS;
    if w > 0 {
      value := DecodeBits(words, data, w);
    }
  }

  // One element is read: the halves of its difference to the element before it
  ghost predicate Reads(flat: seq<bool>, pc: nat, pd: nat, prev: U64, next: nat, x: U64) {
    var low := ReadHalf(flat, pc, pd);
    && low.Half?
    && var high := ReadHalf(flat, pc + 2, low.next);
    && high.Half? && high.next == next && x == Sum(prev, Join(low.value, high.value))
  }

  function Before(xs: seq<U64>, i: nat): (r: U64)
    requires i <= |xs|
  {
    if i == 0 then 0 else xs[i - 1]
  }

  // Element i is read between the i-th positions of the two streams and the next ones
  ghost predicate Hop(flat: seq<bool>, pcs: seq<nat>, pds: seq<nat>, xs: seq<U64>, i: nat)
    requires i < |xs| && |pcs| == |pds| == |xs| + 1
  {
    Reads(flat, pcs[i], pds[i], Before(xs, i), pds[i + 1], xs[i]) && pcs[i + 1] == pcs[i] + 4
  }

  ghost predicate Trail(flat: seq<bool>, pcs: seq<nat>, pds: seq<nat>, xs: seq<U64>) {
    && |pcs| == |pds| == |xs| + 1
    && forall i {:trigger Hop(flat, pcs, pds, xs, i)} :: 0 <= i < |xs| ==> Hop(flat, pcs, pds, xs, i)
  }

  lemma ElementsStep(flat: seq<bool>, pc: nat, pd: nat, prev: U64, count: nat) returns (x: U64, next: nat)
    requires count > 0 && Elements(flat, pc, pd, prev, count).Good?
    ensures Reads(flat, pc, pd, prev, next, x) && Elements(flat, pc + 4, next, x, count - 1).Good?
    ensures Elements(flat, pc, pd, prev, count).xs == [x] + Elements(flat, pc + 4, next, x, count - 1).xs
  {
    var low := ReadHalf(flat, pc, pd);
    var high := ReadHalf(flat, pc + 2, low.next);
    x, next := Sum(prev, Join(low.value, high.value)), high.next;
  }

  lemma TrailStep(flat: seq<bool>, pcs: seq<nat>, pds: seq<nat>, done: seq<U64>, x: U64, pc: nat, pd: nat)
    requires Trail(flat, pcs, pds, done) && pc == pcs[|done|] + 4
    requires Reads(flat, pcs[|done|], pds[|done|], Before(done, |done|), pd, x)
    ensures Trail(flat, pcs + [pc], pds + [pd], done + [x])
  {
    forall i | 0 <= i <= |done| ensures Hop(flat, pcs + [pc], pds + [pd], done + [x], i) {
      if i < |done| {
        assert Hop(flat, pcs, pds, done, i);
      }
    }
  }

  // The positions at which the elements of a well-formed buffer are read, from element i on
  lemma {:induction false} Trails(flat: seq<bool>, pc: nat, pd: nat, prev: U64, count: nat, done: seq<U64>,
                                  pcs: seq<nat>, pds: seq<nat>) returns (allPcs: seq<nat>, allPds: seq<nat>)
    requires Elements(flat, pc, pd, prev, count).Good? && Trail(flat, pcs, pds, done)
    requires prev == Before(done, |done|) && pcs[|done|] == pc && pds[|done|] == pd
    ensures Trail(flat, allPcs, allPds, done + Elements(flat, pc, pd, prev, count).xs)
    ensures pcs <= allPcs && pds <= allPds
    decreases count
  {
    if count == 0 {
      allPcs, allPds := pcs, pds;
      assert done + [] == done;
    } else {
      var x, next := ElementsStep(flat, pc, pd, prev, count);
      var rest := Elements(flat, pc + 4, next, x, count - 1).xs;
      TrailStep(flat, pcs, pds, done, x, pc + 4, next);
      allPcs, allPds := Trails(flat, pc + 4, next, x, count - 1, done + [x], pcs + [pc + 4], pds + [next]);
      assert done + [x] + rest == done + ([x] + rest);
    }
  }

  // Reads one element
  method DecodeElement(words: seq<Word>, control: BitIterator, data: BitIterator, prev: U64, ghost next: nat,
                       ghost x: U64)
    returns (cur: U64)
    requires control != data && control.Valid() && data.Valid()
    requires Reads(Flat(words), control.At(), data.At(), prev, next, x)
    modifies control, data
    ensures control.Valid() && data.Valid() && control.At() == old(control.At()) + 4 && data.At() == next
    ensures cur == x
  {
    var low := Decode(words, control, data);
    var high := Decode(words, control, data);
    cur := Sum(prev, Join(low, high));
  }

  method DecodeAll(words: seq<Word>, out: array<U64>, control: BitIterator, data: BitIterator, total: nat,
                   ghost all: seq<U64>, ghost pcs: seq<nat>, ghost pds: seq<nat>)
    requires control != data && control.Valid() && data.Valid() && total == |all| <= out.Length
    requires Trail(Flat(words), pcs, pds, all) && control.At() == pcs[0] && data.At() == pds[0]
    modifies out, control, data
    ensures out[..total] == all
  {
    ghost var flat := Flat(words);
    var prev: U64 := 0;
    for i := 0 to total
      invariant control.Valid() && data.Valid() && control.At() == pcs[i] && data.At() == pds[i]
      invariant out[..i] == all[..i] && prev == Before(all, i)
    {
      assert Hop(flat, pcs, pds, all, i);
      prev := DecodeElement(words, control, data, prev, pds[i + 1], all[i]);
      out[i] := prev;
    }
  }

  lemma StartTrail(words: seq<Word>, pc: nat, pd: nat, total: nat) returns (pcs: seq<nat>, pds: seq<nat>)
    requires Decoded(words).Good? && total == Val(words[0]) && pc == 32 && pd == 32 * (1 + Words(4 * total))
    ensures Trail(Flat(words), pcs, pds, Decoded(words).xs)
    ensures pcs[0] == pc && pds[0] == pd && |Decoded(words).xs| == total
  {
    pcs, pds := Trails(Flat(words), pc, pd, 0, total, [], [pc], [pd]);
    assert [] + Decoded(words).xs == Decoded(words).xs;
  }

  // Decodes a buffer
  method Decompress(words: seq<Word>, out: array<U64>) returns (total: nat)
    requires Decoded(words).Good? && |Decoded(words).xs| <= out.Length
    modifies out
    ensures total == |Decoded(words).xs| && out[..total] == Decoded(words).xs
  {
    total := Val(words[0]);
    var control := new BitIterator();
    control.AdvanceBytes(1);
    var data := new BitIterator();
    data.AdvanceBytes(1 + ControlBlockSize(total));
    ghost var pcs, pds := StartTrail(words, control.At(), data.At(), total);
    DecodeAll(words, out, control, data, total, Decoded(words).xs, pcs, pds);
  }
}
