/**
  The cache in front of a tracker is invisible. Threads save traces in any order, each behind its own cache of
  recently used traces; ids and tracker end up as if every trace had been inserted.
*/
module CachedInterning {

  import opened Collapse
  import opened Recent
  import opened Lru

  type Trace = seq<Frame>

  type Cache = seq<Entry<Trace, nat>>

  /** A tracker: its sound states, and the state and id that an insertion gives. */
  datatype Interner<!S> = Interner(ok: S -> bool, insert: (S, Trace) -> (S, nat))

  /** Inserting the trace again would give this id and change nothing. */
  ghost predicate Settled<S>(k: Interner<S>, s: S, t: Trace, id: nat) {
    k.insert(s, t) == (s, id)
  }

  ghost predicate At<S>(s: S, t: Trace, u: Trace) { true }

  /** Insertions settle: at once for their own trace, and for good whatever else is inserted. */
  ghost predicate Settles<S(!new)>(k: Interner<S>) {
    forall s, t, u {:trigger At(s, t, u)} :: At(s, t, u) && k.ok(s) ==>
      && k.ok(k.insert(s, t).0)
      && Settled(k, k.insert(s, t).0, t, k.insert(s, t).1)
      && (k.insert(s, t).0 == s ==> Settled(k, k.insert(s, u).0, t, k.insert(s, t).1))
  }

  lemma SettlesAt<S(!new)>(k: Interner<S>, s: S, t: Trace)
    requires Settles(k) && k.ok(s)
    ensures k.ok(k.insert(s, t).0) && Settled(k, k.insert(s, t).0, t, k.insert(s, t).1)
  {
    assert At(s, t, t);
  }

  lemma StaysSettled<S(!new)>(k: Interner<S>, s: S, t: Trace, id: nat, u: Trace)
    requires Settles(k) && k.ok(s) && Settled(k, s, t, id)
    ensures Settled(k, k.insert(s, u).0, t, id)
  {
    assert At(s, t, u);
  }

  // ----- one thread saves a trace

  datatype System<S> = System(tracker: S, caches: seq<Cache>)

  ghost function Save<S>(k: Interner<S>, capacity: nat, sys: System<S>, thread: nat,
                         trace: Trace): (r: (System<S>, nat))
    requires capacity >= 1 && thread < |sys.caches|
    ensures |r.0.caches| == |sys.caches|
  {
    var cache := sys.caches[thread];
    var i := Position(cache, trace);
    if i < |cache| then
      (System(sys.tracker, sys.caches[thread := Touched(cache, trace)]), cache[i].value)
    else
      var (s, id) := k.insert(sys.tracker, trace);
      (System(s, sys.caches[thread := Inserted(cache, capacity, trace, id)]), id)
  }

  /** Every cached id is the one that an insertion would give. */
  ghost predicate Honest<S>(k: Interner<S>, s: S, cache: Cache) {
    forall i {:trigger cache[i]} :: 0 <= i < |cache| ==> Settled(k, s, cache[i].key, cache[i].value)
  }

  ghost predicate AllHonest<S>(k: Interner<S>, sys: System<S>, capacity: nat) {
    forall c {:trigger sys.caches[c]} :: 0 <= c < |sys.caches| ==>
      Honest(k, sys.tracker, sys.caches[c]) && |sys.caches[c]| <= capacity
  }

  lemma HonestTouched<S>(k: Interner<S>, s: S, cache: Cache, trace: Trace)
    requires Honest(k, s, cache)
    ensures Honest(k, s, Touched(cache, trace))
  {
  }

  lemma HonestInserted<S>(k: Interner<S>, s: S, cache: Cache, capacity: nat, trace: Trace, id: nat)
    requires Honest(k, s, cache) && capacity >= 1 && Settled(k, s, trace, id) && |cache| <= capacity
    ensures Honest(k, s, Inserted(cache, capacity, trace, id)) && |Inserted(cache, capacity, trace, id)| <= capacity
  {
  }

  lemma HonestLater<S(!new)>(k: Interner<S>, s: S, cache: Cache, u: Trace)
    requires Settles(k) && k.ok(s) && Honest(k, s, cache)
    ensures Honest(k, k.insert(s, u).0, cache)
  {
    forall i {:trigger cache[i]} | 0 <= i < |cache| ensures Settled(k, k.insert(s, u).0, cache[i].key, cache[i].value) {
      StaysSettled(k, s, cache[i].key, cache[i].value, u);
    }
  }

  lemma HitIsSettled<S>(k: Interner<S>, s: S, cache: Cache, trace: Trace)
    requires Honest(k, s, cache) && Position(cache, trace) < |cache|
    ensures k.insert(s, trace) == (s, cache[Position(cache, trace)].value)
  {
  }

  /** A save does to the tracker what an insertion does, hit or miss, and keeps all caches honest. */
  lemma SaveIsInsert<S(!new)>(k: Interner<S>, capacity: nat, sys: System<S>, thread: nat, trace: Trace)
    requires Settles(k) && k.ok(sys.tracker) && capacity >= 1 && thread < |sys.caches| && AllHonest(k, sys, capacity)
    ensures (Save(k, capacity, sys, thread, trace).0.tracker, Save(k, capacity, sys, thread, trace).1)
         == k.insert(sys.tracker, trace)
    ensures AllHonest(k, Save(k, capacity, sys, thread, trace).0, capacity)
    ensures k.ok(k.insert(sys.tracker, trace).0)
  {
    var s := sys.tracker;
    var cache := sys.caches[thread];
    var next := k.insert(s, trace).0;
    SettlesAt(k, s, trace);
    if Position(cache, trace) < |cache| {
      HitIsSettled(k, s, cache, trace);
      HonestTouched(k, s, cache, trace);
    } else {
      forall c {:trigger sys.caches[c]} | 0 <= c < |sys.caches| ensures Honest(k, next, sys.caches[c]) {
        HonestLater(k, s, sys.caches[c], trace);
      }
      HonestInserted(k, next, cache, capacity, trace, k.insert(s, trace).1);
    }
  }

  // ----- whole runs

  datatype Event = Event(thread: nat, trace: Trace)

  /** All events behind the caches: the final state and the ids. */
  ghost function Behind<S>(k: Interner<S>, capacity: nat, sys: System<S>,
                           events: seq<Event>): (r: (System<S>, seq<nat>))
    requires capacity >= 1 && forall i :: 0 <= i < |events| ==> events[i].thread < |sys.caches|
    ensures |r.0.caches| == |sys.caches|
  {
    if events == [] then (sys, [])
    else
      var n := |events| - 1;
      var (before, ids) := Behind(k, capacity, sys, events[..n]);
      var (after, id) := Save(k, capacity, before, events[n].thread, events[n].trace);
      (after, ids + [id])
  }

  /** The same events without caches. */
  ghost function Direct<S>(k: Interner<S>, s: S, events: seq<Event>): (r: (S, seq<nat>)) {
    if events == [] then (s, [])
    else
      var n := |events| - 1;
      var (before, ids) := Direct(k, s, events[..n]);
      var (after, id) := k.insert(before, events[n].trace);
      (after, ids + [id])
  }

  /** Every run gives the same ids and the same tracker with caches as without, and no cache outgrows its capacity. */
  lemma {:induction false} CachesAreInvisible<S(!new)>(k: Interner<S>, capacity: nat, sys: System<S>,
                                                       events: seq<Event>)
    requires Settles(k) && k.ok(sys.tracker) && capacity >= 1 && AllHonest(k, sys, capacity)
    requires forall i :: 0 <= i < |events| ==> events[i].thread < |sys.caches|
    ensures Behind(k, capacity, sys, events).0.tracker == Direct(k, sys.tracker, events).0
    ensures Behind(k, capacity, sys, events).1 == Direct(k, sys.tracker, events).1
    ensures AllHonest(k, Behind(k, capacity, sys, events).0, capacity) && k.ok(Direct(k, sys.tracker, events).0)
  {
    if events != [] {
      var n := |events| - 1;
      CachesAreInvisible(k, capacity, sys, events[..n]);
      SaveIsInsert(k, capacity, Behind(k, capacity, sys, events[..n]).0, events[n].thread, events[n].trace);
    }
  }

  /** The traces that a thread saves, in order. */
  function SavedBy(events: seq<Event>, thread: nat): (r: seq<Trace>) {
    if events == [] then []
    else
      var n := |events| - 1;
      SavedBy(events[..n], thread) + if events[n].thread == thread then [events[n].trace] else []
  }

  /** A thread's cache holds the traces that it used last. */
  ghost predicate HoldsLatest(cache: Cache, capacity: nat, uses: seq<Trace>) {
    Keys(cache) == Last(Recency(uses), capacity)
  }

  lemma SaveKeepsLatest<S(!new)>(k: Interner<S>, capacity: nat, sys: System<S>, thread: nat, trace: Trace,
                                 uses: seq<Trace>)
    requires capacity >= 1 && thread < |sys.caches| && HoldsLatest(sys.caches[thread], capacity, uses)
    ensures HoldsLatest(Save(k, capacity, sys, thread, trace).0.caches[thread], capacity, uses + [trace])
  {
    var cache := sys.caches[thread];
    var i := Position(cache, trace);
    if i < |cache| {
      UseMoved(uses, cache, capacity, i);
    } else {
      InsertedKeys(uses, cache, capacity, trace, k.insert(sys.tracker, trace).1);
    }
  }

  /** Over every run, each thread's cache holds exactly its own most recently saved traces, up to the capacity. */
  lemma {:induction false} CachesAreRecent<S(!new)>(k: Interner<S>, capacity: nat, sys: System<S>,
                                                    events: seq<Event>, c: nat)
    requires capacity >= 1 && c < |sys.caches| && sys.caches[c] == []
    requires forall i :: 0 <= i < |events| ==> events[i].thread < |sys.caches|
    ensures HoldsLatest(Behind(k, capacity, sys, events).0.caches[c], capacity, SavedBy(events, c))
  {
    if events != [] {
      var n := |events| - 1;
      var before, e := Behind(k, capacity, sys, events[..n]).0, events[n];
      CachesAreRecent(k, capacity, sys, events[..n], c);
      if e.thread == c {
        SaveKeepsLatest(k, capacity, before, c, e.trace, SavedBy(events[..n], c));
      } else {
        assert SavedBy(events, c) == SavedBy(events[..n], c);
      }
    }
  }

  /** Threads start with empty caches, whatever the tracker holds by then. */
  lemma EmptyIsHonest<S>(k: Interner<S>, sys: System<S>, capacity: nat)
    requires forall c :: 0 <= c < |sys.caches| ==> sys.caches[c] == []
    ensures AllHonest(k, sys, capacity)
  {
  }
}

/** Both trackers settle, so both may be cached. */
module SettledTrackers {

  import opened Collapse
  import opened CachedInterning
  import N = Names
  import F = StaticStore
  import Codec

  // ----- the trie

  datatype Trie = Trie(names: seq<N.Name>, leafs: set<nat>)

  ghost function IdIn(names: seq<N.Name>, name: N.Name): (id: nat) {
    if name in names then N.Find(names, name) else 0
  }

  ghost function TrieInsert(depth: nat, s: Trie, t: Trace): (r: (Trie, nat)) {
    var name := N.Outward(Collapsed(t, depth));
    var names := N.Grow(s.names, name);
    (Trie(names, s.leafs + {IdIn(names, name)}), IdIn(names, name))
  }

  ghost predicate TrieOk(s: Trie) {
    N.Tree(s.names)
  }

  ghost function TrieInterner(depth: nat): (r: Interner<Trie>) {
    Interner(s => TrieOk(s), (s, t) => TrieInsert(depth, s, t))
  }

  lemma TrieSettlesAt(depth: nat, s: Trie, t: Trace)
    requires TrieOk(s)
    ensures TrieOk(TrieInsert(depth, s, t).0)
    ensures TrieInsert(depth, TrieInsert(depth, s, t).0, t) == TrieInsert(depth, s, t)
  {
    var name := N.Outward(Collapsed(t, depth));
    N.GrowTree(s.names, name);
    N.GrowAgain(N.Grow(s.names, name), name);
    var leafs := s.leafs + {IdIn(N.Grow(s.names, name), name)};
    assert leafs + {IdIn(N.Grow(s.names, name), name)} == leafs;
  }

  lemma TrieStays(depth: nat, s: Trie, t: Trace, u: Trace)
    requires TrieOk(s) && TrieInsert(depth, s, t).0 == s
    ensures var later := TrieInsert(depth, s, u).0; TrieInsert(depth, later, t) == (later, TrieInsert(depth, s, t).1)
  {
    var name, other := N.Outward(Collapsed(t, depth)), N.Outward(Collapsed(u, depth));
    var more := N.Grow(s.names, other);
    N.GrowTree(s.names, name);
    N.GrowTree(s.names, other);
    assert name in s.names;
    N.FindStable(s.names, more, name);
    N.GrowAgain(more, name);
    var leafs := s.leafs + {IdIn(more, other)};
    assert IdIn(more, name) in s.leafs;
    assert leafs + {IdIn(more, name)} == leafs;
  }

  lemma TrieSettles(depth: nat)
    ensures Settles(TrieInterner(depth))
  {
    var k := TrieInterner(depth);
    forall s: Trie, t: Trace, u: Trace {:trigger At(s, t, u)} | At(s, t, u) && k.ok(s)
      ensures
        && k.ok(k.insert(s, t).0)
        && Settled(k, k.insert(s, t).0, t, k.insert(s, t).1)
        && (k.insert(s, t).0 == s ==> Settled(k, k.insert(s, u).0, t, k.insert(s, t).1))
    {
      TrieSettlesAt(depth, s, t);
      if k.insert(s, t).0 == s {
        TrieStays(depth, s, t, u);
      }
    }
  }

  // ----- the fixed store

  type Store = seq<seq<Codec.U64>>

  /** Frames are read as 64-bit words. */
  function Words64(t: Trace): (r: seq<Codec.U64>) {
    seq(|t|, i requires 0 <= i < |t| => if t[i] < Codec.MOD64 then t[i] else 0)
  }

  ghost function StaticInsert(s: Store, t: Trace): (r: (Store, nat)) {
    var words := Words64(t);
    (F.Stored(s, words), F.Answer(s, words))
  }

  ghost predicate StoreOk(s: Store) {
    F.Sound(s)
  }

  ghost function StaticInterner(): (r: Interner<Store>) {
    Interner(s => StoreOk(s), (s, t) => StaticInsert(s, t))
  }

  lemma StaticSettlesAt(s: Store, t: Trace)
    requires StoreOk(s)
    ensures StoreOk(StaticInsert(s, t).0)
    ensures StaticInsert(StaticInsert(s, t).0, t) == StaticInsert(s, t)
  {
    var words := Words64(t);
    F.StoredIsSound(s, words);
    F.AnswerSettles(s, words);
  }

  lemma StaticStays(s: Store, t: Trace, u: Trace)
    requires StoreOk(s) && StaticInsert(s, t).0 == s
    ensures var later := StaticInsert(s, u).0;
      StaticInsert(later, t) == (later, StaticInsert(s, t).1)
  {
    F.AnswerStays(s, Words64(t), Words64(u));
  }

  lemma StaticSettles()
    ensures Settles(StaticInterner())
  {
    var k := StaticInterner();
    forall s: Store, t: Trace, u: Trace {:trigger At(s, t, u)} | At(s, t, u) && k.ok(s)
      ensures
        && k.ok(k.insert(s, t).0)
        && Settled(k, k.insert(s, t).0, t, k.insert(s, t).1)
        && (k.insert(s, t).0 == s ==> Settled(k, k.insert(s, u).0, t, k.insert(s, t).1))
    {
      StaticSettlesAt(s, t);
      if k.insert(s, t).0 == s {
        StaticStays(s, t, u);
      }
    }
  }
}

/** What the saved ids of a whole run stand for. */
module SavedIds {

  import opened Collapse
  import opened CachedInterning
  import opened SettledTrackers
  import N = Names

  ghost function Traces(depth: nat, events: seq<Event>): (r: seq<Trace>)
    ensures |r| == |events|
  {
    seq(|events|, i requires 0 <= i < |events| => Collapsed(events[i].trace, depth))
  }

  const ROOT_ONLY: Trie := Trie([[]], {})

  /** The trie and the ids are those of interning the traces one after the other. */
  ghost predicate Interned(s: Trie, ids: seq<nat>, traces: seq<Trace>) {
    && s.names == N.After(traces) && |ids| == |traces|
    && (forall i {:trigger ids[i]} :: 0 <= i < |ids| ==> ids[i] == N.IdOf(traces, i) && ids[i] in s.leafs)
    && forall id :: id in s.leafs ==> id in ids
  }

  lemma InternedNext(depth: nat, s: Trie, ids: seq<nat>, before: seq<Trace>, t: Trace)
    requires Interned(s, ids, before)
    ensures Interned(TrieInsert(depth, s, t).0, ids + [TrieInsert(depth, s, t).1], before + [Collapsed(t, depth)])
  {
    var traces, n := before + [Collapsed(t, depth)], |before|;
    var after, more := TrieInsert(depth, s, t).0, ids + [TrieInsert(depth, s, t).1];
    assert traces[..n] == before && traces[..n + 1] == traces;
    forall i {:trigger more[i]} | 0 <= i < |more| ensures more[i] == N.IdOf(traces, i) && more[i] in after.leafs {
      if i < n {
        assert traces[..i + 1] == before[..i + 1] && more[i] == ids[i];
      }
    }
  }

  lemma DirectNext(depth: nat, events: seq<Event>)
    requires events != []
    ensures var n := |events| - 1;
      var (s, ids) := Direct(TrieInterner(depth), ROOT_ONLY, events[..n]);
      var (after, id) := TrieInsert(depth, s, events[n].trace);
      Direct(TrieInterner(depth), ROOT_ONLY, events) == (after, ids + [id])
  {
  }

  lemma TracesNext(depth: nat, events: seq<Event>)
    requires events != []
    ensures var n := |events| - 1;
      Traces(depth, events) == Traces(depth, events[..n]) + [Collapsed(events[n].trace, depth)]
  {
  }

  /** Without caches the run interns the collapsed traces. */
  lemma {:induction false} DirectInterns(depth: nat, events: seq<Event>)
    ensures var (end, ids) := Direct(TrieInterner(depth), ROOT_ONLY, events); Interned(end, ids, Traces(depth, events))
  {
    if events != [] {
      var n := |events| - 1;
      DirectInterns(depth, events[..n]);
      DirectNext(depth, events);
      TracesNext(depth, events);
      var (before, ids) := Direct(TrieInterner(depth), ROOT_ONLY, events[..n]);
      InternedNext(depth, before, ids, Traces(depth, events[..n]), events[n].trace);
    }
  }

  /**
    Whatever the threads save, in whatever order and with whatever evictions: an id leads back to the collapsed
    trace without null frames, and two saves get the same id exactly when those are equal.
  */
  lemma SavedIdsResolve(depth: nat, capacity: nat, sys: System<Trie>, events: seq<Event>, i: nat, j: nat)
    requires capacity >= 1 && sys.tracker == ROOT_ONLY && forall c :: 0 <= c < |sys.caches| ==> sys.caches[c] == []
    requires (forall e :: 0 <= e < |events| ==> events[e].thread < |sys.caches|) && i < |events| && j < |events|
    ensures var (end, ids) := Behind(TrieInterner(depth), capacity, sys, events);
      && |ids| == |events| && ids[i] < |end.tracker.names| && ids[i] in end.tracker.leafs
      && N.Inward(end.tracker.names[ids[i]]) == N.Filtered(Collapsed(events[i].trace, depth))
      && (ids[i] == ids[j] <==>
            N.Filtered(Collapsed(events[i].trace, depth)) == N.Filtered(Collapsed(events[j].trace, depth)))
  {
    var k := TrieInterner(depth);
    EmptyIsHonest(k, sys, capacity);
    TrieSettles(depth);
    N.AfterIsTree([]);
    CachesAreInvisible(k, capacity, sys, events);
    DirectInterns(depth, events);
    N.IdIsStable(Traces(depth, events), i);
    N.SameIdIff(Traces(depth, events), i, j);
  }
}
