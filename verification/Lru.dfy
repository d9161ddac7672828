/**
  The cache of recently used keys. Its entries stand in the order of their last use, oldest first:
  always the most recently used keys, as many as the capacity allows.
*/
module Recent {

  function Without<K(==)>(s: seq<K>, k: K): (r: seq<K>)
    ensures k !in r && |r| <= |s|
  {
    if s == [] then [] else (if s[0] == k then [] else [s[0]]) + Without(s[1..], k)
  }

  /** The keys used so far, each once, in the order of their last use. */
  function Recency<K(==)>(uses: seq<K>): (r: seq<K>) {
    if uses == [] then [] else Without(Recency(uses[..|uses| - 1]), uses[|uses| - 1]) + [uses[|uses| - 1]]
  }

  function LastUse<K(==)>(uses: seq<K>, k: K): (i: nat)
    requires k in uses
    ensures i < |uses| && uses[i] == k && forall j :: i < j < |uses| ==> uses[j] != k
  {
    if uses[|uses| - 1] == k then |uses| - 1 else LastUse(uses[..|uses| - 1], k)
  }

  function Last<K>(s: seq<K>, n: nat): (r: seq<K>)
    ensures |r| <= n
  {
    if |s| <= n then s else s[|s| - n..]
  }

  ghost predicate Unique<K>(s: seq<K>) {
    forall i, j :: 0 <= i < j < |s| ==> s[i] != s[j]
  }

  // ----- removing a key

  lemma {:induction false} WithoutMembers<K>(s: seq<K>, k: K)
    ensures forall x {:trigger x in Without(s, k)} {:trigger x in s} :: x in Without(s, k) <==> x in s && x != k
  {
    if s != [] {
      WithoutMembers(s[1..], k);
      forall x ensures x in Without(s, k) <==> x in s && x != k {
        assert x in s <==> x == s[0] || x in s[1..];
      }
    }
  }

  lemma {:induction false} WithoutAbsent<K>(s: seq<K>, k: K)
    requires k !in s
    ensures Without(s, k) == s
  {
    if s != [] {
      WithoutAbsent(s[1..], k);
    }
  }

  lemma Assoc<K>(a: seq<K>, b: seq<K>, c: seq<K>)
    ensures a + b + c == a + (b + c)
  {
  }

  lemma {:induction false} WithoutConcat<K>(s: seq<K>, t: seq<K>, k: K)
    ensures Without(s + t, k) == Without(s, k) + Without(t, k)
  {
    if s == [] {
      assert s + t == t;
    } else {
      WithoutConcat(s[1..], t, k);
      assert (s + t)[1..] == s[1..] + t;
      Assoc(if s[0] == k then [] else [s[0]], Without(s[1..], k), Without(t, k));
    }
  }

  lemma WithoutMiddle<K>(a: seq<K>, k: K, b: seq<K>)
    requires k !in a && k !in b
    ensures Without(a + [k] + b, k) == a + b
  {
    WithoutConcat(a + [k], b, k);
    WithoutConcat(a, [k], k);
    WithoutAbsent(a, k);
    WithoutAbsent(b, k);
    assert Without([k], k) == [];
    assert a + [] == a;
  }

  // ----- what the recency list is

  ghost predicate Ordered<K>(uses: seq<K>, s: seq<K>) {
    && (forall i :: 0 <= i < |s| ==> s[i] in uses)
    && (forall i, j :: 0 <= i < j < |s| ==> LastUse(uses, s[i]) < LastUse(uses, s[j]))
  }

  lemma {:induction false} WithoutOrdered<K>(uses: seq<K>, s: seq<K>, k: K)
    requires Ordered(uses, s)
    ensures Ordered(uses, Without(s, k))
  {
    if s != [] {
      var rest := Without(s[1..], k);
      WithoutOrdered(uses, s[1..], k);
      WithoutMembers(s[1..], k);
      forall j | 0 <= j < |rest| ensures LastUse(uses, s[0]) < LastUse(uses, rest[j]) {
        assert rest[j] in s[1..];
      }
    }
  }

  lemma LaterUse<K>(uses: seq<K>, k: K, x: K)
    requires x in uses && x != k
    ensures x in uses + [k] && LastUse(uses + [k], x) == LastUse(uses, x)
  {
    assert (uses + [k])[..|uses|] == uses;
  }

  /** The recency list holds exactly the keys used, in the order of their last uses. */
  lemma {:induction false} RecencyIsOrder<K>(uses: seq<K>)
    ensures Ordered(uses, Recency(uses))
    ensures forall x :: x in Recency(uses) <==> x in uses
  {
    if uses != [] {
      var before, k := uses[..|uses| - 1], uses[|uses| - 1];
      assert uses == before + [k];
      var r := Recency(before);
      RecencyIsOrder(before);
      WithoutOrdered(before, r, k);
      WithoutMembers(r, k);
      var w := Without(r, k);
      forall i | 0 <= i < |w| ensures w[i] in uses && LastUse(uses, w[i]) == LastUse(before, w[i]) {
        assert w[i] in w && w[i] in before;
        LaterUse(before, k, w[i]);
      }
    }
  }

  lemma RecencyIsUnique<K>(uses: seq<K>)
    ensures Unique(Recency(uses))
  {
    RecencyIsOrder(uses);
  }

  lemma InLast<K>(s: seq<K>, n: nat, p: nat)
    requires p < |s|
    ensures s[p] !in Last(s, n) ==> p < |s| - |Last(s, n)|
  {
    var l := Last(s, n);
    if p >= |s| - |l| {
      assert l[p - (|s| - |l|)] == s[p];
    }
  }

  lemma LastAt<K>(s: seq<K>, n: nat, i: nat)
    requires i < |Last(s, n)|
    ensures 0 <= |s| - |Last(s, n)| + i < |s| && Last(s, n)[i] == s[|s| - |Last(s, n)| + i]
  {
  }

  /** Every key in the cache was used after every key that is not. */
  lemma CachedAreMostRecent<K>(uses: seq<K>, n: nat, keys: seq<K>, i: nat, k: K)
    requires keys == Last(Recency(uses), n) && i < |keys| && k in uses && k !in keys
    ensures keys[i] in uses && LastUse(uses, k) < LastUse(uses, keys[i])
  {
    var r := Recency(uses);
    RecencyIsOrder(uses);
    assert k in r;
    var p :| 0 <= p < |r| && r[p] == k;
    InLast(r, n, p);
    LastAt(r, n, i);
  }

  /** The first key in the cache is the one used least recently. */
  lemma FirstIsOldest<K>(uses: seq<K>, n: nat, keys: seq<K>, i: nat)
    requires keys == Last(Recency(uses), n) && 0 < i < |keys|
    ensures keys[0] in uses && keys[i] in uses && LastUse(uses, keys[0]) < LastUse(uses, keys[i])
  {
    var r := Recency(uses);
    RecencyIsOrder(uses);
    LastAt(r, n, 0);
    LastAt(r, n, i);
  }

  // ----- one more use

  lemma RecencyNext<K>(uses: seq<K>, k: K)
    ensures Recency(uses + [k]) == Without(Recency(uses), k) + [k]
  {
    assert (uses + [k])[..|uses|] == uses;
  }

  lemma LastSplit<K>(s: seq<K>, n: nat) returns (front: seq<K>)
    ensures s == front + Last(s, n) && (front != [] ==> |Last(s, n)| == n)
  {
    front := s[..|s| - |Last(s, n)|];
  }

  lemma LastOf<K>(front: seq<K>, tail: seq<K>, n: nat)
    requires |tail| <= n && (front != [] ==> |tail| == n)
    ensures Last(front + tail, n) == tail
  {
    if front == [] {
      assert front + tail == tail;
    }
  }

  lemma NotElsewhere<K>(a: seq<K>, k: K, b: seq<K>)
    requires Unique(a + [k] + b)
    ensures k !in a && k !in b
  {
    var s := a + [k] + b;
    assert s[|a|] == k;
    assert forall j :: 0 <= j < |a| ==> a[j] == s[j];
    assert forall j :: 0 <= j < |b| ==> b[j] == s[|a| + 1 + j];
  }

  lemma Regroup<K>(front: seq<K>, a: seq<K>, b: seq<K>, c: seq<K>)
    ensures front + a + b + c == front + (a + b + c)
  {
    Assoc(front, a, b);
    Assoc(front, a + b, c);
  }

  /** A key in the cache moves to the end. */
  lemma UseCached<K>(uses: seq<K>, n: nat, a: seq<K>, k: K, b: seq<K>)
    requires a + [k] + b == Last(Recency(uses), n)
    ensures Last(Recency(uses + [k]), n) == a + b + [k]
  {
    var front := LastSplit(Recency(uses), n);
    RecencyNext(uses, k);
    RecencyIsUnique(uses);
    Regroup(front, a, [k], b);
    NotElsewhere(front + a, k, b);
    WithoutMiddle(front + a, k, b);
    Regroup(front, a, b, [k]);
    LastOf(front, a + b + [k], n);
  }

  /** A new key comes last; the oldest one goes when there is no room. */
  lemma UseNew<K>(uses: seq<K>, n: nat, k: K, keys: seq<K>)
    requires keys == Last(Recency(uses), n) && k !in keys && n >= 1
    ensures |keys| < n ==> Last(Recency(uses + [k]), n) == keys + [k]
    ensures |keys| == n ==> Last(Recency(uses + [k]), n) == keys[1..] + [k]
  {
    var r := Recency(uses);
    var front := LastSplit(r, n);
    RecencyNext(uses, k);
    WithoutConcat(front, keys, k);
    WithoutAbsent(keys, k);
    var w := Without(front, k);
    if |keys| < n {
      Assoc(w, keys, [k]);
      LastOf(w, keys + [k], n);
    } else {
      assert keys == [keys[0]] + keys[1..];
      Regroup(w, [keys[0]], keys[1..], [k]);
      Assoc(w, [keys[0]], keys[1..]);
      Assoc([keys[0]], keys[1..], [k]);
      Assoc(w, [keys[0]], keys[1..] + [k]);
      LastOf(w + [keys[0]], keys[1..] + [k], n);
    }
  }

  /** In a full cache the oldest key makes room, whether or not it is the one used. */
  lemma UseFull<K>(uses: seq<K>, n: nat, first: K, keys: seq<K>, k: K)
    requires n == |keys| + 1 && [first] + keys == Last(Recency(uses), n) && k !in keys
    ensures Last(Recency(uses + [k]), n) == keys + [k]
  {
    if first == k {
      assert [] + [k] == [k] && [] + keys == keys;
      UseCached(uses, n, [], k, keys);
    } else {
      UseNew(uses, n, k, [first] + keys);
      assert ([first] + keys)[1..] == keys;
    }
  }
}

module Lru {

  import opened Options
  import opened Recent

  datatype Entry<K, V> = Entry(key: K, value: V)

  function Keys<K, V>(es: seq<Entry<K, V>>): (r: seq<K>)
    ensures |r| == |es|
  {
    seq(|es|, i requires 0 <= i < |es| => es[i].key)
  }

  /** The position of a key, or the number of entries when it is absent. */
  function Position<K(==), V>(es: seq<Entry<K, V>>, key: K): (i: nat)
    ensures i <= |es| && (i < |es| ==> es[i].key == key)
    ensures i == |es| <==> key !in Keys(es)
  {
    if es == [] then 0
    else if es[0].key == key then assert Keys(es)[0] == key; 0
    else
      var i := Position(es[1..], key);
      assert Keys(es) == [es[0].key] + Keys(es[1..]);
      i + 1
  }

  function Moved<K, V>(es: seq<Entry<K, V>>, i: nat): (r: seq<Entry<K, V>>)
    requires i < |es|
    ensures |r| == |es|
  {
    es[..i] + es[i + 1..] + [es[i]]
  }

  function Touched<K(==), V>(es: seq<Entry<K, V>>, key: K): (r: seq<Entry<K, V>>)
    ensures |r| == |es|
  {
    if Position(es, key) < |es| then Moved(es, Position(es, key)) else es
  }

  function Inserted<K(==), V>(es: seq<Entry<K, V>>, capacity: nat, key: K, value: V): (r: seq<Entry<K, V>>)
    requires capacity >= 1
  {
    if |es| >= capacity then es[1..] + [Entry(key, value)]
    else if Position(es, key) < |es| then Moved(es, Position(es, key))
    else es + [Entry(key, value)]
  }

  lemma MovedFirst<K, V>(es: seq<Entry<K, V>>, e: Entry<K, V>)
    requires es != []
    ensures Moved(es[0 := e], 0) == es[1..] + [e]
  {
  }

  lemma MovedLast<K, V>(es: seq<Entry<K, V>>, e: Entry<K, V>)
    ensures Moved(es + [e], |es|) == es + [e]
  {
  }

  lemma KeysConcat<K, V>(a: seq<Entry<K, V>>, b: seq<Entry<K, V>>)
    ensures Keys(a + b) == Keys(a) + Keys(b)
  {
  }

  lemma KeysMoved<K, V>(es: seq<Entry<K, V>>, i: nat)
    requires i < |es|
    ensures Keys(es) == Keys(es[..i]) + [es[i].key] + Keys(es[i + 1..])
    ensures Keys(Moved(es, i)) == Keys(es[..i]) + Keys(es[i + 1..]) + [es[i].key]
  {
    assert es == es[..i] + [es[i]] + es[i + 1..];
    KeysConcat(es[..i] + [es[i]], es[i + 1..]);
    KeysConcat(es[..i], [es[i]]);
    KeysConcat(es[..i] + es[i + 1..], [es[i]]);
    KeysConcat(es[..i], es[i + 1..]);
  }

  lemma UseMoved<K, V>(uses: seq<K>, es: seq<Entry<K, V>>, capacity: nat, i: nat)
    requires Keys(es) == Last(Recency(uses), capacity) && i < |es|
    ensures Keys(Moved(es, i)) == Last(Recency(uses + [es[i].key]), capacity)
  {
    KeysMoved(es, i);
    UseCached(uses, capacity, Keys(es[..i]), es[i].key, Keys(es[i + 1..]));
  }

  lemma KeysTail<K, V>(es: seq<Entry<K, V>>)
    requires es != []
    ensures es == [es[0]] + es[1..] && Keys(es)[1..] == Keys(es[1..])
  {
    assert es == [es[0]] + es[1..];
    KeysConcat([es[0]], es[1..]);
  }

  /** Replacing the oldest entry. */
  lemma UseReplaced<K, V>(uses: seq<K>, first: Entry<K, V>, rest: seq<Entry<K, V>>, key: K, value: V, capacity: nat)
    requires capacity == |rest| + 1 && Keys([first] + rest) == Last(Recency(uses), capacity) && key !in Keys(rest)
    ensures Keys(rest + [Entry(key, value)]) == Last(Recency(uses + [key]), capacity)
  {
    KeysConcat([first], rest);
    KeysConcat(rest, [Entry(key, value)]);
    UseFull(uses, capacity, first.key, Keys(rest), key);
  }

  /** Insertion keeps the cache at the most recently used keys. */
  lemma InsertedKeys<K, V>(uses: seq<K>, es: seq<Entry<K, V>>, capacity: nat, key: K, value: V)
    requires capacity >= 1 && Keys(es) == Last(Recency(uses), capacity)
    requires |es| >= capacity ==> key !in Keys(es)[1..]
    ensures Keys(Inserted(es, capacity, key, value)) == Last(Recency(uses + [key]), capacity)
  {
    var keys := Keys(es);
    if |es| >= capacity {
      KeysTail(es);
      UseReplaced(uses, es[0], es[1..], key, value, capacity);
    } else if key in keys {
      UseMoved(uses, es, capacity, Position(es, key));
    } else {
      UseNew(uses, capacity, key, keys);
      KeysConcat(es, [Entry(key, value)]);
    }
  }

  class LruCache<K(==), V> {
    const capacity: nat
    /** Both indexes of the container: keys are unique, the sequence is the order. */
    var entries: seq<Entry<K, V>>
    ghost var uses: seq<K>

    ghost predicate Valid()
      reads this
    {
      capacity >= 1 && Keys(entries) == Last(Recency(uses), capacity)
    }

    constructor (capacity: nat)
      requires capacity >= 1
      ensures Valid() && entries == [] && uses == [] && this.capacity == capacity
    {
      this.capacity := capacity;
      entries := [];
      uses := [];
      assert Keys<K, V>([]) == [];
    }

    method Relocate(i: nat)
      requires i < |entries|
      modifies `entries
      ensures entries == Moved(old(entries), i)
    {
      entries := entries[..i] + entries[i + 1..] + [entries[i]];
    }

    method Touch(key: K) returns (r: Option<V>)
      requires Valid()
      modifies this
      ensures Valid() && entries == Touched(old(entries), key)
      ensures r.Some? <==> key in Keys(old(entries))
      ensures r.Some? ==> Entry(key, r.value) in old(entries)
      ensures uses == old(uses) + if r.Some? then [key] else []
    {
      var i := Position(entries, key);
      if i < |entries| {
        r := Some(entries[i].value);
        UseMoved(uses, entries, capacity, i);
        Relocate(i);
        uses := uses + [key];
      } else {
        r := None;
      }
    }

    /**
      Insertion replaces the oldest entry when the cache is full and reports its key. A full cache must not
      hold the new key elsewhere: the replaced entry would clash with it.
    */
    method Insert(key: K, value: V) returns (evicted: Option<K>)
      requires Valid()
      requires |entries| >= capacity ==> key !in Keys(entries)[1..]
      modifies this
      ensures Valid() && entries == Inserted(old(entries), capacity, key, value)
      ensures |entries| <= capacity && uses == old(uses) + [key]
      ensures evicted == if old(|entries|) >= capacity then Some(Keys(old(entries))[0]) else None
    {
      InsertedKeys(uses, entries, capacity, key, value);
      if |entries| >= capacity {
        evicted := Some(entries[0].key);
        MovedFirst(entries, Entry(key, value));
        entries := entries[0 := Entry(key, value)];
        Relocate(0);
      } else {
        evicted := None;
        var i := Position(entries, key);
        if i == |entries| {
          MovedLast(entries, Entry(key, value));
          entries := entries + [Entry(key, value)];
        }
        Relocate(i);
      }
      uses := uses + [key];
    }
  }
}
