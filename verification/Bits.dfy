/**
 Machine words as their bits, least significant first, with the bitwise
 operators defined on them, and the buffers of words as one long bit string.
 */
module Bits {
  type Word = w: seq<bool> | |w| == 32 witness seq(32, _ => false)

  function And(a: Word, b: Word): (r: Word)
    ensures forall i :: 0 <= i < 32 ==> r[i] == (a[i] && b[i])
  {
    seq(32, i requires 0 <= i < 32 => a[i] && b[i])
  }

  function Or(a: Word, b: Word): (r: Word)
    ensures forall i :: 0 <= i < 32 ==> r[i] == (a[i] || b[i])
  {
    seq(32, i requires 0 <= i < 32 => a[i] || b[i])
  }

  function Not(a: Word): (r: Word)
    ensures forall i :: 0 <= i < 32 ==> r[i] == !a[i]
  {
    seq(32, i requires 0 <= i < 32 => !a[i])
  }

  function Falses(n: nat): (r: seq<bool>)
    ensures |r| == n && forall i :: 0 <= i < n ==> !r[i]
  {
    seq(n, i => false)
  }

  const ZEROS: Word := Falses(32)
  const ONES: Word := Not(ZEROS)

  // Shifts that are defined for counts of 32 and more
  function ShiftLeft(value: Word, count: nat): (r: Word)
    ensures forall i :: 0 <= i < 32 ==> r[i] == (i >= count && value[i - count])
  {
    if count >= 32 then ZEROS
    else seq(32, i requires 0 <= i < 32 => i >= count && value[i - count])
  }

  function ShiftRight(value: Word, count: nat): (r: Word)
    ensures forall i :: 0 <= i < 32 ==> r[i] == (i + count < 32 && value[i + count])
  {
    if count >= 32 then ZEROS
    else seq(32, i requires 0 <= i < 32 => i + count < 32 && value[i + count])
  }

  // Clears the bits from `from` up to but not including `to`
  function ClearBits(value: Word, from: nat, to: nat): (r: Word)
    requires from <= to <= 32
    ensures r == value[..from] + Falses(to - from) + value[to..]
  {
    var upper := And(value, ShiftLeft(ONES, from));
    var lower := And(upper, ShiftRight(ONES, 32 - to));
    And(value, Not(lower))
  }

  // The low `count` bits of a word, put at `at` in another
  function PutBits(word: Word, at: nat, count: nat, value: Word): (r: Word)
    requires at + count <= 32
    ensures r == word[..at] + value[..count] + word[at + count..]
  {
    var mask := Not(ShiftLeft(ONES, count));
    Or(ClearBits(word, at, at + count), ShiftLeft(And(value, mask), at))
  }

  // `count` bits of a word from `at`, as a word
  function TakeBits(word: Word, at: nat, count: nat): (r: Word)
    requires at + count <= 32
    ensures r == word[at..at + count] + Falses(32 - count)
  {
    And(ShiftRight(word, at), Not(ShiftLeft(ONES, count)))
  }

  // ----- numbers

  function Pow2(k: nat): (r: nat)
    ensures r > 0
  {
    if k == 0 then 1 else 2 * Pow2(k - 1)
  }

  function Val(s: seq<bool>): (r: nat) {
    if s == [] then 0 else (if s[0] then 1 else 0) + 2 * Val(s[1..])
  }

  function ToBits(n: nat, k: nat): (r: seq<bool>)
    ensures |r| == k
  {
    if k == 0 then [] else [n % 2 == 1] + ToBits(n / 2, k - 1)
  }

  lemma {:induction false} ValBound(s: seq<bool>)
    ensures Val(s) < Pow2(|s|)
  {
    if s != [] {
      ValBound(s[1..]);
    }
  }

  // Reading the bits of a number gives the number back
  lemma {:induction false} ValOfBits(n: nat, k: nat)
    requires n < Pow2(k)
    ensures Val(ToBits(n, k)) == n
  {
    if k > 0 {
      ValOfBits(n / 2, k - 1);
      assert ToBits(n, k)[1..] == ToBits(n / 2, k - 1);
    }
  }

  lemma {:induction false} ZeroBits(s: seq<bool>)
    ensures Val(s) == 0 <==> s == Falses(|s|)
  {
    if s == [] {
      assert s == Falses(0);
    } else {
      ZeroBits(s[1..]);
      if Val(s) == 0 {
        assert s == [false] + s[1..];
        assert s == Falses(|s|);
      }
      if s == Falses(|s|) {
        assert s[1..] == Falses(|s| - 1);
      }
    }
  }

  // A number below 2^k has no bits from k on
  lemma {:induction false} HighBits(s: seq<bool>, k: nat)
    requires k <= |s|
    ensures Val(s) < Pow2(k) <==> s[k..] == Falses(|s| - k)
    decreases k
  {
    if k == 0 {
      assert s[0..] == s;
      ZeroBits(s);
    } else {
      HighBits(s[1..], k - 1);
      assert s[1..][k - 1..] == s[k..];
    }
  }

  // ----- bit strings

  ghost function Flat(ws: seq<Word>): (r: seq<bool>)
    ensures |r| == 32 * |ws|
  {
    seq(32 * |ws|, q requires 0 <= q < 32 * |ws| => ws[q / 32][q % 32])
  }

  lemma Quotient(j: nat, i: nat, at: nat)
    requires i < 32 && at == 32 * j + i
    ensures at / 32 == j && at % 32 == i
  {
  }

  lemma BitAt(ws: seq<Word>, j: nat, i: nat, at: nat)
    requires j < |ws| && i < 32 && at == 32 * j + i
    ensures at < |Flat(ws)| && Flat(ws)[at] == ws[j][i]
  {
    Quotient(j, i, at);
  }

  ghost function Splice(s: seq<bool>, p: nat, bits: seq<bool>): (r: seq<bool>)
    requires p + |bits| <= |s|
    ensures |r| == |s|
  {
    s[..p] + bits + s[p + |bits|..]
  }

  lemma SpliceMore(s: seq<bool>, p: nat, a: seq<bool>, b: seq<bool>)
    requires p + |a| + |b| <= |s|
    ensures Splice(Splice(s, p, a), p + |a|, b) == Splice(s, p, a + b)
  {
  }

  // Splicing leaves the rest alone
  lemma SpliceOutside(s: seq<bool>, p: nat, bits: seq<bool>, q: nat, n: nat)
    requires p + |bits| <= |s| && q + n <= |s|
    requires q + n <= p || p + |bits| <= q
    ensures Splice(s, p, bits)[q..q + n] == s[q..q + n]
  {
  }

  lemma SpliceInside(s: seq<bool>, p: nat, bits: seq<bool>)
    requires p + |bits| <= |s|
    ensures Splice(s, p, bits)[p..p + |bits|] == bits
  {
  }

  lemma SpliceAt(s: seq<bool>, p: nat, bits: seq<bool>, q: nat)
    requires p + |bits| <= |s| && q < |s|
    ensures Splice(s, p, bits)[q] == if p <= q < p + |bits| then bits[q - p] else s[q]
  {
  }

  // Changing part of one word is a splice of the bit string
  lemma FlatUpdate(ws: seq<Word>, j: nat, at: nat, bits: seq<bool>, w: Word)
    requires j < |ws| && at + |bits| <= 32
    requires w == ws[j][..at] + bits + ws[j][at + |bits|..]
    ensures Flat(ws[j := w]) == Splice(Flat(ws), 32 * j + at, bits)
  {
    var a, b := Flat(ws[j := w]), Splice(Flat(ws), 32 * j + at, bits);
    forall q | 0 <= q < |a| ensures a[q] == b[q] {
      var k, i := q / 32, q % 32;
      BitAt(ws[j := w], k, i, q);
      BitAt(ws, k, i, q);
      SpliceAt(Flat(ws), 32 * j + at, bits, q);
      if k == j {
        SpliceAt(ws[j], at, bits, i);
      }
    }
  }

  lemma FlatSlice(ws: seq<Word>, j: nat, at: nat, n: nat)
    requires j < |ws| && at + n <= 32
    ensures Flat(ws)[32 * j + at..32 * j + at + n] == ws[j][at..at + n]
  {
    var p := 32 * j + at;
    var a, b := Flat(ws)[p..p + n], ws[j][at..at + n];
    forall i | 0 <= i < n ensures a[i] == b[i] {
      BitAt(ws, j, at + i, p + i);
    }
  }
}
