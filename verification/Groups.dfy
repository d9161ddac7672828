/**
 Commutative groups and finite sums.

 All accounting sums allocation counters with wrapping arithmetic. What the
 sums rest on is only that the counters form a commutative group, so the
 accounting is stated over an arbitrary one; `Counters` shows that the five
 wrapping counters of an allocation summary are an instance.

 The laws are guarded by `Use`, so that each use of a law is explicit.
 */
module Groups {

  datatype Group<!T> = Group(zero: T, add: (T, T) -> T, neg: T -> T)

  ghost predicate Use<T>(a: T, b: T, c: T) { true }

  ghost predicate Lawful<T(!new)>(g: Group<T>) {
    forall a, b, c {:trigger Use(a, b, c)} ::
      Use(a, b, c) ==>
        && g.add(a, b) == g.add(b, a)
        && g.add(g.add(a, b), c) == g.add(a, g.add(b, c))
        && g.add(g.zero, a) == a
        && g.add(a, g.neg(a)) == g.zero
  }

  lemma Comm<T(!new)>(g: Group<T>, a: T, b: T)
    requires Lawful(g)
    ensures g.add(a, b) == g.add(b, a)
  {
    assert Use(a, b, b);
  }

  lemma Assoc<T(!new)>(g: Group<T>, a: T, b: T, c: T)
    requires Lawful(g)
    ensures g.add(g.add(a, b), c) == g.add(a, g.add(b, c))
  {
    assert Use(a, b, c);
  }

  lemma Zero<T(!new)>(g: Group<T>, a: T)
    requires Lawful(g)
    ensures g.add(g.zero, a) == a == g.add(a, g.zero)
  {
    assert Use(a, g.zero, a);
  }

  lemma Inverse<T(!new)>(g: Group<T>, a: T)
    requires Lawful(g)
    ensures g.add(a, g.neg(a)) == g.zero == g.add(g.neg(a), a)
  {
    assert Use(a, g.neg(a), a);
  }

  // (a + b) + c == (a + c) + b
  lemma Exchange<T(!new)>(g: Group<T>, a: T, b: T, c: T)
    requires Lawful(g)
    ensures g.add(g.add(a, b), c) == g.add(g.add(a, c), b)
  {
    Assoc(g, a, b, c);
    Comm(g, b, c);
    Assoc(g, a, c, b);
  }

  lemma Swap<T(!new)>(g: Group<T>, a: T, b: T, c: T, d: T)
    requires Lawful(g)
    ensures g.add(g.add(a, b), g.add(c, d)) == g.add(g.add(a, c), g.add(b, d))
  {
    Assoc(g, g.add(a, b), c, d);
    Exchange(g, a, b, c);
    Assoc(g, g.add(a, c), b, d);
  }

  function Minus<T>(g: Group<T>, a: T, b: T): (r: T) {
    g.add(a, g.neg(b))
  }

  // b + (a - b) == a
  lemma AddMinus<T(!new)>(g: Group<T>, a: T, b: T)
    requires Lawful(g)
    ensures g.add(b, Minus(g, a, b)) == a
    ensures g.add(Minus(g, a, b), b) == a
  {
    Comm(g, b, Minus(g, a, b));
    Assoc(g, a, g.neg(b), b);
    Inverse(g, b);
    Zero(g, a);
  }

  lemma Cancel<T(!new)>(g: Group<T>, a: T, b: T, c: T)
    requires Lawful(g) && g.add(a, c) == g.add(b, c)
    ensures a == b
  {
    Assoc(g, a, c, g.neg(c));
    Assoc(g, b, c, g.neg(c));
    Inverse(g, c);
    Zero(g, a);
    Zero(g, b);
  }

  // ----- finite sums

  function Sum<T>(g: Group<T>, s: seq<T>): (r: T) {
    if s == [] then g.zero else g.add(Sum(g, s[..|s| - 1]), s[|s| - 1])
  }

  lemma SumPush<T(!new)>(g: Group<T>, s: seq<T>, x: T)
    ensures Sum(g, s + [x]) == g.add(Sum(g, s), x)
  {
    assert (s + [x])[..|s|] == s;
  }

  lemma {:induction false} SumZeros<T(!new)>(g: Group<T>, s: seq<T>)
    requires Lawful(g) && forall i :: 0 <= i < |s| ==> s[i] == g.zero
    ensures Sum(g, s) == g.zero
  {
    if s != [] {
      SumZeros(g, s[..|s| - 1]);
      Zero(g, g.zero);
    }
  }

  lemma {:induction false} SumConcat<T(!new)>(g: Group<T>, s: seq<T>, t: seq<T>)
    requires Lawful(g)
    ensures Sum(g, s + t) == g.add(Sum(g, s), Sum(g, t))
  {
    if t == [] {
      assert s + t == s;
      Zero(g, Sum(g, s));
    } else {
      var t', x := t[..|t| - 1], t[|t| - 1];
      SumConcat(g, s, t');
      assert s + t == (s + t') + [x] && t == t' + [x];
      SumPush(g, s + t', x);
      SumPush(g, t', x);
      Assoc(g, Sum(g, s), Sum(g, t'), x);
    }
  }

  // Adding d to one term adds d to the sum
  lemma {:induction false} SumAdd<T(!new)>(g: Group<T>, s: seq<T>, t: seq<T>, k: nat, d: T)
    requires Lawful(g) && |s| == |t| && k < |s|
    requires t[k] == g.add(s[k], d) && forall i :: 0 <= i < |s| && i != k ==> t[i] == s[i]
    ensures Sum(g, t) == g.add(Sum(g, s), d)
  {
    var n := |s| - 1;
    if k == n {
      assert s[..n] == t[..n];
      Assoc(g, Sum(g, s[..n]), s[n], d);
    } else {
      SumAdd(g, s[..n], t[..n], k, d);
      Exchange(g, Sum(g, s[..n]), d, s[n]);
    }
  }

  // Only one term counts
  lemma SumOne<T(!new)>(g: Group<T>, s: seq<T>, k: nat)
    requires Lawful(g) && k < |s| && forall i :: 0 <= i < |s| && i != k ==> s[i] == g.zero
    ensures Sum(g, s) == s[k]
  {
    var none := s[k := g.zero];
    SumZeros(g, none);
    Zero(g, s[k]);
    SumAdd(g, none, s, k, s[k]);
  }

  // Termwise sums
  lemma {:induction false} SumPairs<T(!new)>(g: Group<T>, s: seq<T>, t: seq<T>, u: seq<T>)
    requires Lawful(g) && |s| == |t| == |u|
    requires forall i :: 0 <= i < |s| ==> u[i] == g.add(s[i], t[i])
    ensures Sum(g, u) == g.add(Sum(g, s), Sum(g, t))
  {
    if s == [] {
      Zero(g, g.zero);
    } else {
      var n := |s| - 1;
      SumPairs(g, s[..n], t[..n], u[..n]);
      Swap(g, Sum(g, s[..n]), Sum(g, t[..n]), s[n], t[n]);
    }
  }
}

/** Tallies: finite maps from ids to counters, where a missing id counts zero. */
module Tallies {
  import opened Groups

  // Trace ids are 32-bit numbers
  const TRACE_IDS: nat := 0x1_0000_0000

  function Get<T>(g: Group<T>, m: map<nat, T>, i: nat): (r: T) {
    if i in m then m[i] else g.zero
  }

  function Put<T>(g: Group<T>, m: map<nat, T>, i: nat, d: T): (r: map<nat, T>) {
    m[i := if i in m then g.add(m[i], d) else d]
  }

  lemma PutAdds<T(!new)>(g: Group<T>, m: map<nat, T>, i: nat, d: T)
    requires Lawful(g)
    ensures forall j :: Get(g, Put(g, m, i, d), j) == if j == i then g.add(Get(g, m, i), d) else Get(g, m, j)
  {
    Zero(g, d);
  }

  // The counters of the ids below n
  ghost function Column<T>(g: Group<T>, m: map<nat, T>, n: nat): (r: seq<T>)
    ensures |r| == n && forall i :: 0 <= i < n ==> r[i] == Get(g, m, i)
  {
    seq(n, i requires 0 <= i < n => Get(g, m, i))
  }

  ghost function Total<T>(g: Group<T>, m: map<nat, T>, n: nat): (r: T) {
    Sum(g, Column(g, m, n))
  }

  // The counters of the chosen ids
  ghost function Only<T>(m: map<nat, T>, keep: nat -> bool): (r: map<nat, T>) {
    map i | i in m && keep(i) :: m[i]
  }

  lemma OnlySame<T>(m: map<nat, T>, p: nat -> bool, q: nat -> bool)
    requires forall i :: i in m ==> p(i) == q(i)
    ensures Only(m, p) == Only(m, q)
  {
  }

  // Two tallies that agree on the chosen ids have the same total there
  lemma OnlyTotal<T(!new)>(g: Group<T>, a: map<nat, T>, b: map<nat, T>, keep: nat -> bool, n: nat)
    requires forall i :: keep(i) ==> Get(g, a, i) == Get(g, b, i)
    ensures Total(g, Only(a, keep), n) == Total(g, Only(b, keep), n)
  {
    assert Column(g, Only(a, keep), n) == Column(g, Only(b, keep), n);
  }

  ghost predicate Below<T>(m: map<nat, T>, n: nat) {
    forall i :: i in m ==> i < n
  }

  lemma TotalOfEmpty<T(!new)>(g: Group<T>, n: nat)
    requires Lawful(g)
    ensures Total(g, map[], n) == g.zero
  {
    SumZeros(g, Column(g, map[], n));
  }

  lemma TotalPut<T(!new)>(g: Group<T>, m: map<nat, T>, k: nat, d: T, n: nat)
    requires Lawful(g) && k < n
    ensures Total(g, Put(g, m, k, d), n) == g.add(Total(g, m, n), d)
  {
    PutAdds(g, m, k, d);
    SumAdd(g, Column(g, m, n), Column(g, Put(g, m, k, d), n), k, d);
  }

  // Overwriting a counter changes the total by the difference
  lemma TotalSet<T(!new)>(g: Group<T>, m: map<nat, T>, k: nat, v: T, n: nat)
    requires Lawful(g) && k < n
    ensures Total(g, m[k := v], n) == g.add(Total(g, m, n), Minus(g, v, Get(g, m, k)))
  {
    AddMinus(g, v, Get(g, m, k));
    SumAdd(g, Column(g, m, n), Column(g, m[k := v], n), k, Minus(g, v, Get(g, m, k)));
  }

  // c tallies what a and b tally together
  ghost predicate Merged<T(!new)>(g: Group<T>, a: map<nat, T>, b: map<nat, T>, c: map<nat, T>) {
    forall i {:trigger Get(g, c, i)} :: Get(g, c, i) == g.add(Get(g, a, i), Get(g, b, i))
  }

  lemma TotalMerged<T(!new)>(g: Group<T>, a: map<nat, T>, b: map<nat, T>, c: map<nat, T>, n: nat)
    requires Lawful(g) && Merged(g, a, b, c)
    ensures Total(g, c, n) == g.add(Total(g, a, n), Total(g, b, n))
  {
    SumPairs(g, Column(g, a, n), Column(g, b, n), Column(g, c, n));
  }
}

/** The counters of an allocation summary: five 64-bit counters with wrapping arithmetic. */
module Counters {
  import opened Groups

  const TWO63: int := 0x8000_0000_0000_0000
  const TWO64: int := 0x1_0000_0000_0000_0000

  newtype i64 = x: int | -0x8000_0000_0000_0000 <= x < 0x8000_0000_0000_0000
  newtype u64 = x: int | 0 <= x < 0x1_0000_0000_0000_0000

  datatype Summary = Summary(size: i64, active: i64, overhead: i64, totalCount: u64, totalBytes: u64)

  // Reduction modulo 2^64 of the sum or difference of two 64-bit numbers
  function WrapSigned(x: int): (r: i64)
    requires -TWO64 <= x < TWO64
  {
    (if x >= TWO63 then x - TWO64 else if x < -TWO63 then x + TWO64 else x) as i64
  }

  function WrapUnsigned(x: int): (r: u64)
    requires -TWO64 < x < 2 * TWO64
  {
    (if x >= TWO64 then x - TWO64 else if x < 0 then x + TWO64 else x) as u64
  }

  function AddSigned(a: i64, b: i64): (r: i64) { WrapSigned(a as int + b as int) }
  function AddUnsigned(a: u64, b: u64): (r: u64) { WrapUnsigned(a as int + b as int) }

  function Add(a: Summary, b: Summary): (r: Summary) {
    Summary(
      AddSigned(a.size, b.size),
      AddSigned(a.active, b.active),
      AddSigned(a.overhead, b.overhead),
      AddUnsigned(a.totalCount, b.totalCount),
      AddUnsigned(a.totalBytes, b.totalBytes))
  }

  function Negate(a: Summary): (r: Summary) {
    Summary(
      WrapSigned(-(a.size as int)),
      WrapSigned(-(a.active as int)),
      WrapSigned(-(a.overhead as int)),
      WrapUnsigned(-(a.totalCount as int)),
      WrapUnsigned(-(a.totalBytes as int)))
  }

  // The wrapping difference of two summaries, field by field
  function Sub(a: Summary, b: Summary): (r: Summary) {
    Summary(
      WrapSigned(a.size as int - b.size as int),
      WrapSigned(a.active as int - b.active as int),
      WrapSigned(a.overhead as int - b.overhead as int),
      WrapUnsigned(a.totalCount as int - b.totalCount as int),
      WrapUnsigned(a.totalBytes as int - b.totalBytes as int))
  }

  const ZERO := Summary(0, 0, 0, 0, 0)

  function Wrapping(): (g: Group<Summary>) {
    Group(ZERO, Add, Negate)
  }

  lemma SignedLaws(a: i64, b: i64, c: i64)
    ensures AddSigned(a, b) == AddSigned(b, a)
    ensures AddSigned(AddSigned(a, b), c) == AddSigned(a, AddSigned(b, c))
    ensures AddSigned(0, a) == a
    ensures AddSigned(a, WrapSigned(-(a as int))) == 0
    ensures WrapSigned(a as int - b as int) == AddSigned(a, WrapSigned(-(b as int)))
  {
  }

  lemma UnsignedLaws(a: u64, b: u64, c: u64)
    ensures AddUnsigned(a, b) == AddUnsigned(b, a)
    ensures AddUnsigned(AddUnsigned(a, b), c) == AddUnsigned(a, AddUnsigned(b, c))
    ensures AddUnsigned(0, a) == a
    ensures AddUnsigned(a, WrapUnsigned(-(a as int))) == 0
    ensures WrapUnsigned(a as int - b as int) == AddUnsigned(a, WrapUnsigned(-(b as int)))
  {
  }

  // The wrapping counters form a commutative group, in which Sub is the difference
  lemma WrappingIsLawful()
    ensures Lawful(Wrapping())
  {
    var g := Wrapping();
    forall a: Summary, b: Summary, c: Summary | Use(a, b, c)
      ensures
        && g.add(a, b) == g.add(b, a)
        && g.add(g.add(a, b), c) == g.add(a, g.add(b, c))
        && g.add(g.zero, a) == a
        && g.add(a, g.neg(a)) == g.zero
    {
      SignedLaws(a.size, b.size, c.size);
      SignedLaws(a.active, b.active, c.active);
      SignedLaws(a.overhead, b.overhead, c.overhead);
      UnsignedLaws(a.totalCount, b.totalCount, c.totalCount);
      UnsignedLaws(a.totalBytes, b.totalBytes, c.totalBytes);
    }
  }

  lemma SubIsMinus(a: Summary, b: Summary)
    ensures Sub(a, b) == Minus(Wrapping(), a, b)
  {
    SignedLaws(a.size, b.size, 0);
    SignedLaws(a.active, b.active, 0);
    SignedLaws(a.overhead, b.overhead, 0);
    UnsignedLaws(a.totalCount, b.totalCount, 0);
    UnsignedLaws(a.totalBytes, b.totalBytes, 0);
  }
}
