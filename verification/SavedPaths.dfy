/**
 From the stack trace of an allocation to its place in the reader's graph.
 External traces are collapsed and saved behind caches into the trie, the
 profiler's own go into the fixed store as they are. The writer looks their ids
 up in both as they stand at each flush; the reader shows the symbols of the
 addresses. An operation counts at the node of the path so shown.
 */
module SavedPaths {
  import opened Options
  import opened Groups
  import opened CallTree
  import opened CallGraph
  import opened Accounting
  import opened AccountingRuns
  import opened Conservation
  import opened Attribution
  import opened Writer
  import opened Reader
  import opened Session
  import opened EndToEnd
  import C = Collapse
  import Codec
  import F = StaticStore
  import I = TraceIds
  import K = CachedInterning
  import N = Names
  import S = SavedIds
  import T = SettledTrackers

  // ----- all saves of a run

  // Where an id comes from: the i-th external save, or the i-th save of the profiler's own
  datatype Origin = External(index: nat) | Inner(index: nat)

  // All saves of a run and what they leave, and where the ids in use come from
  datatype Saves = Saves(
    depth: nat, outer: seq<K.Event>, inner: seq<K.Event>,
    trie: T.Trie, ids: seq<nat>, store: T.Store, innerIds: seq<nat>, origins: map<nat, Origin>)

  // What is offered to the fixed store
  ghost function Offered(events: seq<K.Event>): (r: seq<seq<Codec.U64>>)
    ensures |r| == |events|
  {
    seq(|events|, i requires 0 <= i < |events| => T.Words64(events[i].trace))
  }

  ghost predicate Stored(store: T.Store, ids: seq<nat>, run: seq<seq<Codec.U64>>) {
    && store == F.After(run) && |ids| == |run|
    && forall j {:trigger ids[j]} :: 0 <= j < |ids| ==> ids[j] == F.IdOf(run, j)
  }

  ghost predicate ComesFrom(s: Saves, id: nat, o: Origin) {
    match o
    case External(i) => i < |s.ids| && s.ids[i] == id
    case Inner(i) => i < |s.innerIds| && s.innerIds[i] == id
  }

  ghost predicate Sound(s: Saves) {
    && S.Interned(s.trie, s.ids, S.Traces(s.depth, s.outer))
    && Stored(s.store, s.innerIds, Offered(s.inner))
    && forall id :: id in s.origins ==> ComesFrom(s, id, s.origins[id])
  }

  lemma StoredNext(store: T.Store, ids: seq<nat>, before: seq<seq<Codec.U64>>, words: seq<Codec.U64>)
    requires Stored(store, ids, before)
    ensures Stored(F.Stored(store, words), ids + [F.Answer(store, words)], before + [words])
  {
    var run, n, more := before + [words], |before|, ids + [F.Answer(store, words)];
    assert run[..n] == before;
    forall j {:trigger more[j]} | 0 <= j < |more| ensures more[j] == F.IdOf(run, j) {
      if j < n {
        assert run[..j] == before[..j] && more[j] == ids[j];
      }
    }
  }

  lemma DirectNext(events: seq<K.Event>)
    requires events != []
    ensures var n := |events| - 1;
      var (store, ids) := K.Direct(T.StaticInterner(), [], events[..n]);
      var words := T.Words64(events[n].trace);
      K.Direct(T.StaticInterner(), [], events) == (F.Stored(store, words), ids + [F.Answer(store, words)])
  {
  }

  lemma OfferedNext(events: seq<K.Event>)
    requires events != []
    ensures var n := |events| - 1; Offered(events) == Offered(events[..n]) + [T.Words64(events[n].trace)]
  {
  }

  // The fixed store takes what is offered, in order
  lemma {:induction false} DirectStores(events: seq<K.Event>)
    ensures var (end, ids) := K.Direct(T.StaticInterner(), [], events); Stored(end, ids, Offered(events))
    decreases |events|
  {
    if events != [] {
      var n := |events| - 1;
      DirectStores(events[..n]);
      DirectNext(events);
      OfferedNext(events);
      var (store, ids) := K.Direct(T.StaticInterner(), [], events[..n]);
      StoredNext(store, ids, Offered(events[..n]), T.Words64(events[n].trace));
    }
  }

  // Threads save external traces behind their caches, which start empty, in any order and with any evictions,
  // and insert the profiler's own traces directly
  lemma SavesAreSound(depth: nat, capacity: nat, sys: K.System<T.Trie>, outer: seq<K.Event>, inner: seq<K.Event>,
                      origins: map<nat, Origin>)
    requires capacity >= 1 && sys.tracker == S.ROOT_ONLY && forall c :: 0 <= c < |sys.caches| ==> sys.caches[c] == []
    requires forall e :: 0 <= e < |outer| ==> outer[e].thread < |sys.caches|
    ensures var (end, ids) := K.Behind(T.TrieInterner(depth), capacity, sys, outer);
      var (store, innerIds) := K.Direct(T.StaticInterner(), [], inner);
      var s := Saves(depth, outer, inner, end.tracker, ids, store, innerIds, origins);
      (forall id :: id in origins ==> ComesFrom(s, id, origins[id])) ==> Sound(s)
  {
    K.EmptyIsHonest(T.TrieInterner(depth), sys, capacity);
    T.TrieSettles(depth);
    N.AfterIsTree([]);
    K.CachesAreInvisible(T.TrieInterner(depth), capacity, sys, outer);
    S.DirectInterns(depth, outer);
    DirectStores(inner);
  }

  // ----- the paths

  // The writer finds what both trackers know in the end. Trace 0 is written when the file is opened, and may be
  // unknown by then.
  ghost predicate Finds(find: Finder, s: Saves) {
    forall id :: find(id) == I.Lookup(s.trie, s.store, id) || (id == 0 && find(id) == None)
  }

  // An external trace: the symbols of its frames, collapsed and without null frames; one without frames may be unknown
  ghost function ExternalPath(sym: nat -> seq<Frame>, find: Finder, depth: nat, trace: K.Trace): (r: seq<Frame>) {
    var frames := N.Filtered(C.Collapsed(trace, depth));
    if frames == [] && find(0) == None then [UNKNOWN_FRAME] else Symbols(sym, Addresses(frames))
  }

  // A trace of the profiler's own: the symbols of its first frames under its root, or unknown if the store was full
  ghost function InnerPath(sym: nat -> seq<Frame>, trace: K.Trace, id: nat): (r: seq<Frame>) {
    if id == F.UNKNOWN_TRACE_ID then [UNKNOWN_FRAME]
    else [MEMHAWK_FRAME] + Symbols(sym, Addresses(I.Frames(F.Span(T.Words64(trace)))))
  }

  lemma ZeroIsEmpty(s: Saves, i: nat)
    requires Sound(s) && i < |s.outer|
    ensures s.ids[i] == 0 <==> N.Filtered(C.Collapsed(s.outer[i].trace, s.depth)) == []
  {
    var traces := S.Traces(s.depth, s.outer);
    N.IdIsStable(traces, i);
    N.AfterIsTree(traces);
    assert s.ids[i] == N.IdOf(traces, i);
    if N.Filtered(traces[i]) == [] {
      N.InwardIsInjective(s.trie.names[s.ids[i]], []);
    }
  }

  lemma NamedAs(sym: nat -> seq<Frame>, find: Finder, id: nat, frames: seq<nat>)
    requires id < MEMHAWK_TRACES && (id == 0 <==> frames == [])
    requires find(id) == Some(frames) || (id == 0 && find(id) == None)
    ensures NamedPath(sym, find, id)
      == if frames == [] && find(0) == None then [UNKNOWN_FRAME] else Symbols(sym, Addresses(frames))
  {
    assert [] + Symbols(sym, Addresses(frames)) == Symbols(sym, Addresses(frames));
  }

  // While the trie has fewer than 2^31 nodes, the path of a saved external trace is its own
  lemma ExternalNamed(sym: nat -> seq<Frame>, find: Finder, s: Saves, i: nat)
    requires Sound(s) && Finds(find, s) && |s.trie.names| <= MEMHAWK_TRACES && i < |s.outer|
    ensures NamedPath(sym, find, s.ids[i]) == ExternalPath(sym, find, s.depth, s.outer[i].trace)
  {
    var traces := S.Traces(s.depth, s.outer);
    I.ExternalResolves(s.trie, s.ids, traces, s.store, i);
    ZeroIsEmpty(s, i);
    NamedAs(sym, find, s.ids[i], N.Filtered(traces[i]));
  }

  lemma InnerNamed(sym: nat -> seq<Frame>, find: Finder, s: Saves, i: nat)
    requires Sound(s) && Finds(find, s) && |s.trie.names| <= MEMHAWK_TRACES && i < |s.inner|
    ensures NamedPath(sym, find, s.innerIds[i]) == InnerPath(sym, s.inner[i].trace, s.innerIds[i])
  {
    var run := Offered(s.inner);
    I.OwnResolves(s.trie, run, i);
    assert s.innerIds[i] == F.IdOf(run, i);
  }

  // The path of the save that an id comes from
  ghost function OriginPath(sym: nat -> seq<Frame>, find: Finder, s: Saves, id: nat): (r: seq<Frame>)
    requires Sound(s) && id in s.origins
  {
    match s.origins[id]
    case External(i) =>
      assert ComesFrom(s, id, s.origins[id]);
      ExternalPath(sym, find, s.depth, s.outer[i].trace)
    case Inner(i) =>
      assert ComesFrom(s, id, s.origins[id]);
      InnerPath(sym, s.inner[i].trace, id)
  }

  lemma OriginNamed(sym: nat -> seq<Frame>, find: Finder, s: Saves, id: nat)
    requires Sound(s) && Finds(find, s) && |s.trie.names| <= MEMHAWK_TRACES && id in s.origins
    ensures NamedPath(sym, find, id) == OriginPath(sym, find, s, id)
  {
    assert ComesFrom(s, id, s.origins[id]);
    match s.origins[id]
    case External(i) => ExternalNamed(sym, find, s, i);
    case Inner(i) => InnerNamed(sym, find, s, i);
  }

  // ----- lookups as the trackers stand

  // The same saves and more
  ghost predicate Before(early: Saves, late: Saves) {
    && early.depth == late.depth && early.outer <= late.outer && early.inner <= late.inner
    && early.origins.Keys <= late.origins.Keys
  }

  lemma SameIds(a: seq<K.Trace>, b: seq<K.Trace>, i: nat)
    requires i < |a| && a <= b
    ensures N.IdOf(a, i) == N.IdOf(b, i)
  {
    assert a[..i + 1] == b[..i + 1];
  }

  lemma SameAnswers(a: seq<seq<Codec.U64>>, b: seq<seq<Codec.U64>>, i: nat)
    requires i < |a| && a <= b
    ensures F.IdOf(a, i) == F.IdOf(b, i)
  {
    assert a[..i] == b[..i];
  }

  lemma EarlyTraces(early: Saves, late: Saves)
    requires Before(early, late)
    ensures S.Traces(early.depth, early.outer) <= S.Traces(late.depth, late.outer)
    ensures Offered(early.inner) <= Offered(late.inner)
  {
  }

  lemma EarlyIsSmaller(early: Saves, late: Saves)
    requires Sound(early) && Sound(late) && Before(early, late)
    ensures |early.trie.names| <= |late.trie.names|
  {
    EarlyTraces(early, late);
    var traces, more := S.Traces(early.depth, early.outer), S.Traces(late.depth, late.outer);
    N.AfterGrows(more, |traces|);
    assert more[..|traces|] == traces;
  }

  lemma ExternalIsLasting(early: Saves, late: Saves, i: nat)
    requires Sound(early) && Sound(late) && Before(early, late) && i < |early.outer|
    ensures I.Lookup(early.trie, early.store, early.ids[i]) == I.Lookup(late.trie, late.store, early.ids[i])
  {
    EarlyTraces(early, late);
    var traces, more := S.Traces(early.depth, early.outer), S.Traces(late.depth, late.outer);
    SameIds(traces, more, i);
    assert early.ids[i] == N.IdOf(traces, i) && late.ids[i] == N.IdOf(more, i);
    I.ExternalResolves(early.trie, early.ids, traces, early.store, i);
    I.ExternalResolves(late.trie, late.ids, more, late.store, i);
  }

  lemma InnerIsLasting(early: Saves, late: Saves, i: nat)
    requires Sound(early) && Sound(late) && Before(early, late) && i < |early.inner|
    requires |late.trie.names| <= F.FIXED_TRACKER_ID_FLAG
    ensures I.Lookup(early.trie, early.store, early.innerIds[i]) == I.Lookup(late.trie, late.store, early.innerIds[i])
  {
    EarlyTraces(early, late);
    EarlyIsSmaller(early, late);
    var run, more := Offered(early.inner), Offered(late.inner);
    SameAnswers(run, more, i);
    assert early.innerIds[i] == F.IdOf(run, i);
    I.OwnResolves(early.trie, run, i);
    I.OwnResolves(late.trie, more, i);
  }

  // What a lookup gives for an id that has been handed out does not change any more
  lemma LookupIsLasting(early: Saves, late: Saves, id: nat)
    requires Sound(early) && Sound(late) && Before(early, late) && |late.trie.names| <= F.FIXED_TRACKER_ID_FLAG
    requires id in early.origins
    ensures I.Lookup(early.trie, early.store, id) == I.Lookup(late.trie, late.store, id)
  {
    assert ComesFrom(early, id, early.origins[id]);
    match early.origins[id]
    case External(i) => ExternalIsLasting(early, late, i);
    case Inner(i) => InnerIsLasting(early, late, i);
  }

  // The saves done by each flush, the last of them by the end
  ghost predicate Staged(stages: nat -> Saves, last: Saves) {
    && Sound(last)
    && (forall k: nat :: Sound(stages(k)) && Before(stages(k), last))
    && (forall k: nat, l: nat :: k <= l ==> Before(stages(k), stages(l)))
  }

  // Every flush looks up in the trackers as they stand
  ghost predicate AsTheyStand(lookups: Lookups, stages: nat -> Saves) {
    forall k: nat, id: nat :: lookups(k)(id) == I.Lookup(stages(k).trie, stages(k).store, id)
  }

  // What is found in the end, except that trace 0 was looked up at the opening
  ghost function InTheEnd(lookups: Lookups, last: Saves): (find: Finder) {
    (id: nat) => if id == 0 then lookups(0)(0) else I.Lookup(last.trie, last.store, id)
  }

  lemma EndFinds(lookups: Lookups, stages: nat -> Saves, last: Saves)
    requires Staged(stages, last) && AsTheyStand(lookups, stages)
    ensures Finds(InTheEnd(lookups, last), last)
  {
    var first := stages(0);
    assert Sound(first) && Before(first, last);
    if lookups(0)(0) != None {
      assert 0 in first.trie.leafs;
      assert 0 in first.ids;
      var i :| 0 <= i < |first.ids| && first.ids[i] == 0;
      ExternalIsLasting(first, last, i);
    }
  }

  // ----- every id was saved before it is flushed

  // Every operation was saved before the flush that follows it
  ghost predicate SavedInTime(acts: seq<Action>, stages: nat -> Saves, k: nat)
    decreases |acts|
  {
    acts == [] ||
    (&& (forall op :: op in Submits(acts[0]) ==> op.info.traceId in stages(k).origins)
     && SavedInTime(acts[1..], stages, if acts[0].DrainEnd? then k + 1 else k))
  }

  // All ids that are under way
  ghost predicate Among<T>(s: State<T>, ids: set<nat>) {
    && (forall i :: 0 <= i < |s.trackers| ==> s.trackers[i].summaries.Keys <= ids)
    && s.exiting.summaries.Keys <= ids && s.inner.summaries.Keys <= ids && s.worker.hand.summaries.Keys <= ids
    && (forall op :: op in s.postponed ==> op.info.traceId in ids)
    && (forall i :: 0 <= i < |s.threads| && s.threads[i].inner.Delayed? ==> s.threads[i].inner.op.info.traceId in ids)
  }

  lemma OnThreadAmong<T(!new)>(g: Group<T>, c: Costs<T>, s: State<T>, k: nat, op: Op, ids: set<nat>)
    requires Among(s, ids) && op.info.traceId in ids && k < |s.threads| && OwnsTracker(s.threads[k], |s.trackers|)
    ensures Among(OnThread(g, c, s, k, op), ids)
  {
  }

  lemma WorkerAmong<T(!new)>(g: Group<T>, c: Costs<T>, s: State<T>, a: Action, ids: set<nat>)
    requires Among(s, ids) && Enabled(s, a) && (a.DrainBegin? || a.DrainConsume? || a.DrainAccount? || a.DrainEnd?)
    ensures Among(Do(g, c, s, a), ids)
  {
  }

  lemma ExternalAmong<T(!new)>(g: Group<T>, c: Costs<T>, s: State<T>, a: Action, ids: set<nat>)
    requires Among(s, ids) && Enabled(s, a) && (a.External? || a.ExternalRealloc?)
    requires forall op :: op in Submits(a) ==> op.info.traceId in ids
    ensures Among(Do(g, c, s, a), ids)
  {
    if a.External? {
      assert a.op in Submits(a);
      OnThreadAmong(g, c, s, a.thread, a.op, ids);
    } else {
      assert Free(a.prev) in Submits(a) && Alloc(a.info) in Submits(a);
      OnThreadAmong(g, c, s, a.thread, Free(a.prev), ids);
      OnThreadAmong(g, c, Submit(g, c, OnThread(g, c, s, a.thread, Free(a.prev)), Free(a.prev)), a.thread,
                    Alloc(a.info), ids);
    }
  }

  lemma OwnAmong<T(!new)>(g: Group<T>, c: Costs<T>, s: State<T>, a: Action, ids: set<nat>)
    requires Among(s, ids) && Enabled(s, a) && forall op :: op in Submits(a) ==> op.info.traceId in ids
    requires !a.External? && !a.ExternalRealloc?
    requires !a.DrainBegin? && !a.DrainConsume? && !a.DrainAccount? && !a.DrainEnd?
    ensures Among(Do(g, c, s, a), ids)
  {
    match a
    case InnerTrack(k, op) => assert op in Submits(a);
    case InnerRealloc(k, prev, info) => assert Free(prev) in Submits(a) && Alloc(info) in Submits(a);
    case Postpone(k, op) => assert op in Submits(a);
    case InnerPop(k) => assert s.postponed[0] in s.postponed;
    case _ =>
  }

  lemma StepAmong<T(!new)>(g: Group<T>, c: Costs<T>, s: State<T>, a: Action, ids: set<nat>)
    requires Among(s, ids) && Enabled(s, a) && forall op :: op in Submits(a) ==> op.info.traceId in ids
    ensures Among(Do(g, c, s, a), ids)
  {
    if a.External? || a.ExternalRealloc? {
      ExternalAmong(g, c, s, a, ids);
    } else if a.DrainBegin? || a.DrainConsume? || a.DrainAccount? || a.DrainEnd? {
      WorkerAmong(g, c, s, a, ids);
    } else {
      OwnAmong(g, c, s, a, ids);
    }
  }

  lemma FlushFinds(lookups: Lookups, stages: nat -> Saves, last: Saves, k: nat, traces: set<nat>)
    requires Staged(stages, last) && AsTheyStand(lookups, stages) && |last.trie.names| <= MEMHAWK_TRACES
    requires traces <= stages(k).origins.Keys && 0 !in traces
    ensures SameFor(lookups(k), InTheEnd(lookups, last), traces)
  {
    assert Sound(stages(k)) && Before(stages(k), last);
    forall id | id in traces ensures lookups(k)(id) == InTheEnd(lookups, last)(id) {
      LookupIsLasting(stages(k), last, id);
    }
  }

  lemma FlushAgrees<T(!new)>(timestamp: nat, lookup: Finder, rest: seq<Event<T>>, find: Finder, changed: set<nat>,
                             written: set<nat>)
    requires SameFor(lookup, find, changed - written) && Agrees(rest, find, {}, written + changed)
    ensures Agrees([Flush(timestamp, lookup)] + rest, find, changed, written)
  {
    assert ([Flush(timestamp, lookup)] + rest)[1..] == rest;
  }

  lemma AccountAgrees<T(!new)>(summaries: map<nat, T>, total: T, rest: seq<Event<T>>, find: Finder, changed: set<nat>,
                               written: set<nat>)
    requires Agrees(rest, find, changed + summaries.Keys, written)
    ensures Agrees([Account(summaries, total)] + rest, find, changed, written)
  {
    assert ([Account(summaries, total)] + rest)[1..] == rest;
  }

  // The flushes of the worker find what is found in the end
  lemma {:induction false} EmittedAgrees<T(!new)>(g: Group<T>, c: Costs<T>, s: State<T>, acts: seq<Action>,
                                                  clock: Clock,
                                                  k: nat, lookups: Lookups, stages: nat -> Saves, last: Saves,
                                                  changed: set<nat>, written: set<nat>)
    requires Runs(g, c, s, acts) && Staged(stages, last) && AsTheyStand(lookups, stages)
    requires |last.trie.names| <= MEMHAWK_TRACES && SavedInTime(acts, stages, k)
    requires Among(s, stages(k).origins.Keys) && changed <= stages(k).origins.Keys && 0 in written
    ensures Agrees(Emitted(g, c, s, acts, clock, k, lookups), InTheEnd(lookups, last), changed, written)
    decreases |acts|
  {
    if acts != [] {
      var a, next, ids := acts[0], Do(g, c, s, acts[0]), stages(k).origins.Keys;
      StepAmong(g, c, s, a, ids);
      if a.DrainEnd? {
        assert Before(stages(k), stages(k + 1));
        EmittedAgrees(g, c, next, acts[1..], clock, k + 1, lookups, stages, last, {}, written + changed);
        FlushFinds(lookups, stages, last, k, changed - written);
        FlushAgrees(clock(k), lookups(k), Emitted(g, c, next, acts[1..], clock, k + 1, lookups),
                    InTheEnd(lookups, last), changed, written);
      } else if a.DrainAccount? {
        var hand := s.worker.hand;
        EmittedAgrees(g, c, next, acts[1..], clock, k, lookups, stages, last, changed + hand.summaries.Keys, written);
        AccountAgrees(hand.summaries, hand.total, Emitted(g, c, next, acts[1..], clock, k, lookups),
                      InTheEnd(lookups, last), changed, written);
      } else {
        EmittedAgrees(g, c, next, acts[1..], clock, k, lookups, stages, last, changed, written);
      }
    }
  }

  lemma OpeningAgrees<T(!new)>(g: Group<T>, clock: Clock, lookups: Lookups, rest: seq<Event<T>>, find: Finder)
    requires Agrees(rest, find, {}, {0}) && find(0) == lookups(0)(0)
    ensures Agrees(Opening(g, clock, lookups) + rest, find, {}, {})
  {
    var empty, flush := map[0 := g.zero], Flush(clock(0), lookups(0));
    assert {} + {0} == {0} && {} + empty.Keys == {0};
    FlushAgrees(clock(0), lookups(0), rest, find, {0}, {});
    AccountAgrees(empty, g.zero, [flush] + rest, find, {}, {});
    assert Opening(g, clock, lookups) + rest == [Account(empty, g.zero)] + ([flush] + rest);
  }

  // With the lookups of every flush as the trackers stand then, the paths are those that are found in the end
  lemma AllEventsAgree<T(!new)>(g: Group<T>, c: Costs<T>, capacity: nat, acts: seq<Action>, clock: Clock,
                                lookups: Lookups, stages: nat -> Saves, last: Saves)
    requires Runs(g, c, Start(g, capacity), acts) && Staged(stages, last) && AsTheyStand(lookups, stages)
    requires |last.trie.names| <= MEMHAWK_TRACES && SavedInTime(acts, stages, 1)
    ensures Agrees(AllEvents(g, c, capacity, acts, clock, lookups), InTheEnd(lookups, last), {}, {})
  {
    EmittedAgrees(g, c, Start(g, capacity), acts, clock, 1, lookups, stages, last, {}, {0});
    OpeningAgrees(g, clock, lookups, Emitted(g, c, Start(g, capacity), acts, clock, 1, lookups),
                  InTheEnd(lookups, last));
  }

  // ----- the graph

  ghost predicate AllFrom(s: Saves, ops: seq<Op>) {
    forall op :: op in ops ==> op.info.traceId in s.origins
  }

  // What an operation contributes if the path of its save is in the region
  ghost function SavedCost<T>(g: Group<T>, c: Costs<T>, sym: nat -> seq<Frame>, find: Finder, s: Saves, op: Op,
                              r: Region)
    : (cost: T)
    requires Sound(s)
  {
    if op.info.traceId in s.origins && In(r, OriginPath(sym, find, s, op.info.traceId)) then Cost(c, op) else g.zero
  }

  ghost function SavedCosts<T>(g: Group<T>, c: Costs<T>, sym: nat -> seq<Frame>, find: Finder, s: Saves, ops: seq<Op>,
                               r: Region)
    : (costs: seq<T>)
    requires Sound(s)
    ensures |costs| == |ops| && forall i :: 0 <= i < |ops| ==> costs[i] == SavedCost(g, c, sym, find, s, ops[i], r)
  {
    seq(|ops|, i requires 0 <= i < |ops| => SavedCost(g, c, sym, find, s, ops[i], r))
  }

  lemma SavedCostsAre<T(!new)>(g: Group<T>, c: Costs<T>, sym: nat -> seq<Frame>, find: Finder, s: Saves,
                               ops: seq<Op>, r: Region)
    requires Sound(s) && Finds(find, s) && |s.trie.names| <= MEMHAWK_TRACES && AllFrom(s, ops)
    ensures SavedCosts(g, c, sym, find, s, ops, r) == OpCosts(g, c, ops, Falling(sym, find, r))
  {
    forall i | 0 <= i < |ops|
      ensures SavedCosts(g, c, sym, find, s, ops, r)[i] == OpCosts(g, c, ops, Falling(sym, find, r))[i]
    {
      assert ops[i] in ops;
      OriginNamed(sym, find, s, ops[i].info.traceId);
    }
  }

  // The costs of saved operations, by region
  ghost function SavedSum<T>(g: Group<T>, c: Costs<T>, sym: nat -> seq<Frame>, find: Finder, s: Saves, ops: seq<Op>)
    : (sum: Region -> T)
    requires Sound(s)
  {
    (r: Region) => Sum(g, SavedCosts(g, c, sym, find, s, ops, r))
  }

  // Once everything is drained and flushed: an operation saved with a raw trace counts in the own value of the node
  // that has the path shown for the trace, and in the totals of the nodes above it
  lemma NodeIsSaved<T(!new)>(writer: ProtoWriter<T>, reader: Processor<T>, c: Costs<T>, end: State<T>, ops: seq<Op>,
                             find: Finder, s: Saves, i: nat)
    requires Profiled(writer, reader, end, find) && writer.changed == {}
    requires HoldsAll(writer.g, c, end, ops) && Drained(end) && i < |reader.graph.nodes|
    requires Sound(s) && Finds(find, s) && |s.trie.names| <= MEMHAWK_TRACES
    requires AllFrom(s, ops) && AllFrom(s, end.skipped)
    ensures var all := SavedSum(writer.g, c, reader.sym, find, s, ops);
      var skipped := SavedSum(writer.g, c, reader.sym, find, s, end.skipped);
      var node, path := reader.graph.nodes[i], Trace(reader.graph.nodes, reader.graph.edges, i);
      && writer.g.add(CallTree.Own(writer.g, node.agg), skipped(At(path))) == all(At(path))
      && writer.g.add(node.agg.total, skipped(Under(path))) == all(Under(path))
  {
    var path := Trace(reader.graph.nodes, reader.graph.edges, i);
    NodeHolds(writer, reader, c, end, ops, find, i);
    SavedCostsAre(writer.g, c, reader.sym, find, s, ops, At(path));
    SavedCostsAre(writer.g, c, reader.sym, find, s, ops, Under(path));
    SavedCostsAre(writer.g, c, reader.sym, find, s, end.skipped, At(path));
    SavedCostsAre(writer.g, c, reader.sym, find, s, end.skipped, Under(path));
  }

  // And in the values of the frames on that path
  lemma FrameIsSaved<T(!new)>(writer: ProtoWriter<T>, reader: Processor<T>, c: Costs<T>, end: State<T>, ops: seq<Op>,
                              find: Finder, s: Saves, f: Frame)
    requires Profiled(writer, reader, end, find) && writer.changed == {}
    requires HoldsAll(writer.g, c, end, ops) && Drained(end)
    requires Sound(s) && Finds(find, s) && |s.trie.names| <= MEMHAWK_TRACES
    requires AllFrom(s, ops) && AllFrom(s, end.skipped)
    ensures FrameIsCost(writer.g, f, reader.graph.frames, SavedSum(writer.g, c, reader.sym, find, s, end.skipped),
                        SavedSum(writer.g, c, reader.sym, find, s, ops))
  {
    FrameHolds(writer, reader, c, end, ops, find, f);
    forall r ensures SavedSum(writer.g, c, reader.sym, find, s, ops)(r)
                  == CostSum(writer.g, c, ops, reader.sym, find)(r)
    {
      SavedCostsAre(writer.g, c, reader.sym, find, s, ops, r);
    }
    forall r ensures SavedSum(writer.g, c, reader.sym, find, s, end.skipped)(r)
                  == CostSum(writer.g, c, end.skipped, reader.sym, find)(r)
    {
      SavedCostsAre(writer.g, c, reader.sym, find, s, end.skipped, r);
    }
  }

  // ----- whole runs

  lemma {:induction false} SkippedWereSubmitted<T(!new)>(g: Group<T>, c: Costs<T>, st: State<T>, acts: seq<Action>,
                                                         op: Op)
    requires Runs(g, c, st, acts) && op in After(g, c, st, acts).skipped
    ensures op in st.skipped || op in History(acts)
    decreases |acts|
  {
    if acts != [] {
      SkippedWereSubmitted(g, c, Do(g, c, st, acts[0]), acts[1..], op);
    }
  }

  lemma {:induction false} InTimeIsSaved(acts: seq<Action>, stages: nat -> Saves, k: nat, last: Saves, op: Op)
    requires Staged(stages, last) && SavedInTime(acts, stages, k) && op in History(acts)
    ensures op.info.traceId in last.origins
    decreases |acts|
  {
    if op in Submits(acts[0]) {
      assert Before(stages(k), last);
    } else {
      InTimeIsSaved(acts[1..], stages, if acts[0].DrainEnd? then k + 1 else k, last, op);
    }
  }

  // Every node and every frame shows the costs of its operations
  ghost predicate ShowsAll<T(!new)>(reader: Processor<T>, c: Costs<T>, lookups: Lookups, last: Saves, ops: seq<Op>,
                                    left: seq<Op>)
    reads reader, reader.graph
    requires Sound(last)
  {
    var all := SavedSum(reader.g, c, reader.sym, InTheEnd(lookups, last), last, ops);
    var skipped := SavedSum(reader.g, c, reader.sym, InTheEnd(lookups, last), last, left);
    && reader.graph.Valid()
    && (forall i {:trigger reader.graph.nodes[i]} :: 0 <= i < |reader.graph.nodes| ==>
          var node, path := reader.graph.nodes[i], Trace(reader.graph.nodes, reader.graph.edges, i);
          && reader.g.add(CallTree.Own(reader.g, node.agg), skipped(At(path))) == all(At(path))
          && reader.g.add(node.agg.total, skipped(Under(path))) == all(Under(path)))
    && (forall f :: FrameIsCost(reader.g, f, reader.graph.frames, skipped, all))
  }

  lemma AllShown<T(!new)>(writer: ProtoWriter<T>, reader: Processor<T>, c: Costs<T>, capacity: nat, acts: seq<Action>,
                          lookups: Lookups, stages: nat -> Saves, last: Saves)
    requires Runs(writer.g, c, Start(writer.g, capacity), acts)
    requires Drained(After(writer.g, c, Start(writer.g, capacity), acts)) && writer.changed == {}
    requires Profiled(writer, reader, After(writer.g, c, Start(writer.g, capacity), acts), InTheEnd(lookups, last))
    requires Staged(stages, last) && AsTheyStand(lookups, stages)
    requires |last.trie.names| <= MEMHAWK_TRACES && SavedInTime(acts, stages, 1)
    ensures var end := After(writer.g, c, Start(writer.g, capacity), acts);
      ShowsAll(reader, c, lookups, last, History(acts), end.skipped)
  {
    var end, find := After(writer.g, c, Start(writer.g, capacity), acts), InTheEnd(lookups, last);
    EndFinds(lookups, stages, last);
    RunHoldsAll(writer.g, c, capacity, acts);
    forall op | op in History(acts) ensures op.info.traceId in last.origins {
      InTimeIsSaved(acts, stages, 1, last, op);
    }
    forall op | op in end.skipped ensures op.info.traceId in last.origins {
      SkippedWereSubmitted(writer.g, c, Start(writer.g, capacity), acts, op);
    }
    forall i | 0 <= i < |reader.graph.nodes|
      ensures var all := SavedSum(reader.g, c, reader.sym, find, last, History(acts));
        var skipped := SavedSum(reader.g, c, reader.sym, find, last, end.skipped);
        var node, path := reader.graph.nodes[i], Trace(reader.graph.nodes, reader.graph.edges, i);
        && reader.g.add(CallTree.Own(reader.g, node.agg), skipped(At(path))) == all(At(path))
        && reader.g.add(node.agg.total, skipped(Under(path))) == all(Under(path))
    {
      NodeIsSaved(writer, reader, c, end, History(acts), find, last, i);
    }
    forall f ensures FrameIsCost(reader.g, f, reader.graph.frames,
                                 SavedSum(reader.g, c, reader.sym, find, last, end.skipped),
                                 SavedSum(reader.g, c, reader.sym, find, last, History(acts)))
    {
      FrameIsSaved(writer, reader, c, end, History(acts), find, last, f);
    }
  }

  // The whole way: for every interleaving of threads, saves and worker, after a finished round that drained everything,
  // every node and every frame shows the costs of the operations saved with the raw traces shown there
  method ProfileSaves<T(!new)>(g: Group<T>, c: Costs<T>, sym: nat -> seq<Frame>, capacity: nat, acts: seq<Action>,
                               clock: Clock, lookups: Lookups, ghost stages: nat -> Saves, ghost last: Saves)
    returns (writer: ProtoWriter<T>, reader: Processor<T>, seen: seq<T>)
    requires Lawful(g) && Runs(g, c, Start(g, capacity), acts) && Ticking(clock)
    requires Staged(stages, last) && AsTheyStand(lookups, stages)
    requires |last.trie.names| <= MEMHAWK_TRACES && SavedInTime(acts, stages, 1)
    ensures seen == [g.zero] + WrittenTotals(g, c, Start(g, capacity), acts)
    ensures writer.g == g && reader.sym == sym
    ensures Profiled(writer, reader, After(g, c, Start(g, capacity), acts), InTheEnd(lookups, last))
    ensures Rested(acts) && Drained(After(g, c, Start(g, capacity), acts)) ==>
      ShowsAll(reader, c, lookups, last, History(acts), After(g, c, Start(g, capacity), acts).skipped)
  {
    AllEventsAgree(g, c, capacity, acts, clock, lookups, stages, last);
    writer, reader, seen := Profile(g, c, sym, capacity, acts, clock, lookups, InTheEnd(lookups, last));
    if Rested(acts) && Drained(After(g, c, Start(g, capacity), acts)) {
      AllShown(writer, reader, c, capacity, acts, lookups, stages, last);
    }
  }
}
