/**
  A thread's tracker: the cache in front of the interned traces, and the tallies that the worker takes over.
*/
module ThreadTrackers {

  import opened Groups
  import opened Accounting
  import opened Collapse
  import opened Lru
  import opened Interning
  import opened CachedInterning
  import opened SettledTrackers
  import N = Names

  ghost function TrieOf(tracker: StacktraceTracker): (r: Trie)
    reads tracker
  {
    Trie(tracker.names, tracker.leafs)
  }

  /** An insertion with the trie's number for the collapsed trace. */
  lemma InsertedTrie(depth: nat, s: Trie, t: Trace, after: Trie, id: nat)
    requires TrieOk(s) && N.Tree(after.names)
    requires after.names == N.Grow(s.names, N.Outward(Collapsed(t, depth))) && after.leafs == s.leafs + {id}
    requires id < |after.names| && after.names[id] == N.Outward(Collapsed(t, depth))
    ensures TrieInsert(depth, s, t) == (after, id)
  {
    var name := N.Outward(Collapsed(t, depth));
    assert name in after.names;
    assert N.Find(after.names, name) == id;
  }

  /** What a miss leaves in the cache is honest again. */
  lemma MissIsHonest(depth: nat, capacity: nat, s: Trie, cache: Cache, t: Trace)
    requires TrieOk(s) && capacity >= 1 && |cache| <= capacity && Honest(TrieInterner(depth), s, cache)
    ensures Honest(TrieInterner(depth), TrieInsert(depth, s, t).0,
                   Inserted(cache, capacity, t, TrieInsert(depth, s, t).1))
  {
    var k := TrieInterner(depth);
    TrieSettles(depth);
    SettlesAt(k, s, t);
    HonestLater(k, s, cache, t);
    HonestInserted(k, k.insert(s, t).0, cache, capacity, t, k.insert(s, t).1);
  }

  lemma HitIsHonest(depth: nat, s: Trie, cache: Cache, t: Trace, value: nat)
    requires Honest(TrieInterner(depth), s, cache) && Entry(t, value) in cache
    ensures TrieInsert(depth, s, t) == (s, value)
    ensures Honest(TrieInterner(depth), s, Touched(cache, t))
  {
    var k := TrieInterner(depth);
    var i :| 0 <= i < |cache| && cache[i] == Entry(t, value);
    assert Settled(k, s, cache[i].key, cache[i].value);
    HonestTouched(k, s, cache, t);
  }

  class ThreadTracker<T(!new)> {
    const g: Group<T>
    const c: Costs<T>
    const collapseDepth: nat
    const lru: LruCache<Trace, nat>
    const btTracker: StacktraceTracker

    var allocSummaries: map<nat, T>
    var total: T
    var totalAllocs: nat
    var totalDeallocs: nat
    var cacheUsages: nat
    var cacheMisses: nat

    ghost predicate Valid()
      reads this, lru, btTracker
    {
      && lru.Valid() && btTracker.Valid()
      && Honest(TrieInterner(collapseDepth), TrieOf(btTracker), lru.entries)
    }

    ghost function Tally(): (r: Tracker<T>)
      reads this
    {
      Tracker(allocSummaries, total)
    }

    constructor (g: Group<T>, c: Costs<T>, capacity: nat, collapseDepth: nat, btTracker: StacktraceTracker)
      requires capacity >= 1 && btTracker.Valid()
      ensures Valid() && fresh(lru) && this.btTracker == btTracker && this.collapseDepth == collapseDepth
      ensures this.g == g && this.c == c && Tally() == Fresh(g) && lru.entries == []
    {
      this.g := g;
      this.c := c;
      this.collapseDepth := collapseDepth;
      this.btTracker := btTracker;
      lru := new LruCache<Trace, nat>(capacity);
      allocSummaries := map[];
      total := g.zero;
      totalAllocs := 0;
      totalDeallocs := 0;
      cacheUsages := 0;
      cacheMisses := 0;
    }

    method InsertCollapsed(trace: array<Frame>) returns (traceId: nat)
      requires btTracker.Valid() && trace.Length <= MAX_UNWIND_DEPTH
      modifies btTracker, trace
      ensures btTracker.Valid()
      ensures (TrieOf(btTracker), traceId) == TrieInsert(collapseDepth, old(TrieOf(btTracker)), old(trace[..]))
    {
      ghost var s, key := TrieOf(btTracker), trace[..];
      var size := CollapseRecursionOpt(trace, collapseDepth);
      traceId := btTracker.InsertStacktrace(trace[..size]);
      InsertedTrie(collapseDepth, s, key, TrieOf(btTracker), traceId);
    }

    /**
      The id and the tracker after it are those of inserting the collapsed trace, whether or not the cache
      knew the trace. The key is the trace before collapsing, which happens in place and only on a miss.
    */
    method SaveTraceId(trace: array<Frame>) returns (traceId: nat)
      requires Valid() && trace.Length <= MAX_UNWIND_DEPTH
      modifies `cacheUsages, `cacheMisses, lru, btTracker, trace
      ensures Valid()
      ensures (TrieOf(btTracker), traceId) == TrieInsert(collapseDepth, old(TrieOf(btTracker)), old(trace[..]))
      ensures lru.uses == old(lru.uses) + [old(trace[..])]
      ensures cacheUsages == old(cacheUsages) + 1
      ensures cacheMisses == old(cacheMisses) + if old(trace[..]) in Keys(old(lru.entries)) then 0 else 1
    {
      ghost var s, cache := TrieOf(btTracker), lru.entries;
      cacheUsages := cacheUsages + 1;
      var key := trace[..];
      var cached := lru.Touch(key);
      if cached.None? {
        assert lru.entries == cache;
        traceId := InsertCollapsed(trace);
        cacheMisses := cacheMisses + 1;
        MissIsHonest(collapseDepth, lru.capacity, s, cache, key);
        var evicted := lru.Insert(key, traceId);
      } else {
        traceId := cached.value;
        HitIsHonest(collapseDepth, s, cache, key, traceId);
      }
    }

    method TrackAlloc(info: Info)
      requires Lawful(g)
      modifies `totalAllocs, `allocSummaries, `total
      ensures Tally() == Track(g, c, old(Tally()), Alloc(info))
      ensures totalAllocs == old(totalAllocs) + 1
    {
      totalAllocs := totalAllocs + 1;
      if info.traceId !in allocSummaries {
        allocSummaries := allocSummaries[info.traceId := g.zero];
      }
      Zero(g, c.alloc(info));
      allocSummaries := allocSummaries[info.traceId := g.add(allocSummaries[info.traceId], c.alloc(info))];
      total := g.add(total, c.alloc(info));
    }

    method TrackDealloc(info: Info)
      requires Lawful(g)
      modifies `totalDeallocs, `allocSummaries, `total
      ensures Tally() == Track(g, c, old(Tally()), Free(info))
      ensures totalDeallocs == old(totalDeallocs) + 1
    {
      totalDeallocs := totalDeallocs + 1;
      if info.traceId !in allocSummaries {
        allocSummaries := allocSummaries[info.traceId := g.zero];
      }
      Zero(g, c.free(info));
      allocSummaries := allocSummaries[info.traceId := g.add(allocSummaries[info.traceId], c.free(info))];
      total := g.add(total, c.free(info));
    }

    /** The worker swaps its old map in, which is then emptied, and adds the total to its own. */
    method ConsumeDiff(hand: Tracker<T>) returns (taken: Tracker<T>)
      modifies `allocSummaries, `total
      ensures taken == Consume(g, hand, old(Tally())) && Tally() == Fresh(g)
    {
      var swapped := hand.summaries;
      allocSummaries, swapped := swapped, allocSummaries;
      allocSummaries := map[];
      taken := Tracker(swapped, g.add(hand.total, total));
      total := g.zero;
    }
  }
}
