/**
 Writer and reader together: cumulative values on one side, differences on the
 other. Over every run whose timestamps increase, the reader's root total
 equals the total that the writer sent, which is the sum of everything
 accounted so far.
 */
module Session {
  import opened Options
  import opened Groups
  import opened Tallies
  import opened CallTree
  import opened CallGraph
  import opened Snapshots
  import opened Attribution
  import opened Writer
  import opened Reader
  import opened Telescoping

  // The addresses of a trace as the reader sees them: outermost first
  function Addresses(trace: seq<nat>): (r: seq<nat>) {
    if trace == [] then [] else Addresses(trace[1..]) + [Addr(trace[0])]
  }

  // ----- tables and values

  // The reader knows the address of every id that was written
  ghost predicate TableSync(written: seq<nat>, table: map<nat, nat>) {
    forall i :: 0 <= i < |written| ==> i in table && table[i] == written[i]
  }

  lemma {:induction false} TableFollows(before: seq<nat>, after: seq<nat>, news: seq<PtrEntry>, table: map<nat, nat>)
    requires GrewBy(before, after, news) && TableSync(before, table)
    ensures TableSync(after, ApplyPtrs(table, news))
    decreases |news|
  {
    if news == [] {
      assert after == before;
    } else {
      var n := |news| - 1;
      var middle := after[..|before| + n];
      assert middle[..|before|] == before;
      TableFollows(before, middle, news[..n], table);
    }
  }

  lemma {:induction false} ResolvedIsAddresses(written: seq<nat>, table: map<nat, nat>, ids: seq<nat>, trace: seq<nat>)
    requires TableSync(written, table) && Spells(written, ids, trace)
    ensures Resolved(table, ids) == Addresses(trace)
  {
    if ids != [] {
      assert ids[0] < |written| && written[ids[0]] == Addr(trace[0]);
      assert Spells(written, ids[1..], trace[1..]);
      ResolvedIsAddresses(written, table, ids[1..], trace[1..]);
    }
  }

  // After the stacks of a snapshot, every stacked trace is located at the frames of its addresses
  lemma StackBefore(stacks: seq<Stack>, n: nat, t: nat)
    requires HasStack(stacks, t) && n == |stacks| - 1 && stacks[n].traceId != t
    ensures HasStack(stacks[..n], t)
  {
    var u :| u in stacks && u.traceId == t;
    var i :| 0 <= i < |stacks| && stacks[i] == u;
    assert stacks[..n][i] == u;
  }

  lemma {:induction false} StacksLocate(sym: nat -> seq<Frame>, find: nat -> Option<seq<nat>>, written: seq<nat>,
                                        table: map<nat, nat>,
                                        done: set<nat>, located: map<nat, seq<Frame>>, stacks: seq<Stack>, t: nat)
    requires TableSync(written, table) && HasStack(stacks, t)
    requires forall s :: s in stacks ==> StackOk(find, written, done, s)
    ensures find(t).Some?
    ensures var after := ApplyStacks(sym, table, located, stacks);
      t in after && after[t] == Localized(sym, t, Addresses(find(t).value))
  {
    var n := |stacks| - 1;
    var s := stacks[n];
    assert s in stacks && StackOk(find, written, done, s);
    if s.traceId == t {
      ResolvedIsAddresses(written, table, s.ptrIds, find(t).value);
    } else {
      StackBefore(stacks, n, t);
      StacksLocate(sym, find, written, table, done, located, stacks[..n], t);
    }
  }

  ghost predicate Listed<T>(list: seq<Changed<T>>, t: nat) {
    exists c :: c in list && c.traceId == t
  }

  lemma {:induction false} ChangedReplaces<T(!new)>(g: Group<T>, last: map<nat, T>, local: map<nat, T>,
                                                    list: seq<Changed<T>>, t: nat)
    requires forall c :: c in list ==> c.traceId in local && c.actual == Some(local[c.traceId])
    ensures Get(g, ApplyChanged(last, list), t) == if Listed(list, t) then Get(g, local, t) else Get(g, last, t)
  {
    if list != [] {
      var n := |list| - 1;
      ChangedReplaces(g, last, local, list[..n], t);
      assert list[n] in list;
      if Listed(list[..n], t) {
        var c :| c in list[..n] && c.traceId == t;
        assert c in list;
      }
      if Listed(list, t) && list[n].traceId != t {
        var c :| c in list && c.traceId == t;
        var i :| 0 <= i < |list| && list[i] == c;
        assert list[..n][i] == c;
      }
    }
  }

  // The reader has the writer's cumulative value of every trace that is not waiting to be flushed
  ghost predicate InSync<T(!new)>(g: Group<T>, local: map<nat, T>, changed: set<nat>, last: map<nat, T>) {
    forall t {:trigger Get(g, last, t)} :: t !in changed ==> Get(g, last, t) == Get(g, local, t)
  }

  lemma FlushSyncs<T(!new)>(g: Group<T>, local: map<nat, T>, changed: set<nat>, last: map<nat, T>,
                            list: seq<Changed<T>>)
    requires Lawful(g) && InSync(g, local, changed, last) && changed <= local.Keys && Flushed(local, changed, list)
    ensures InSync(g, local, {}, ApplyChanged(last, list))
    ensures Total(g, ApplyChanged(last, list), TRACE_IDS) == Total(g, local, TRACE_IDS)
  {
    var after := ApplyChanged(last, list);
    forall t ensures Get(g, after, t) == Get(g, local, t) {
      ChangedReplaces(g, last, local, list, t);
      if t in changed {
        assert Changed(t, Some(local[t])) in list;
        assert Listed(list, t);
      } else {
        assert !Listed(list, t);
      }
    }
    assert Column(g, after, TRACE_IDS) == Column(g, local, TRACE_IDS);
  }

  // ----- the paths of the traces

  // The path of a trace: the frames of its addresses, or the unknown frame if its stack cannot be found
  ghost function NamedPath(sym: nat -> seq<Frame>, find: nat -> Option<seq<nat>>, t: nat): (r: seq<Frame>) {
    if find(t).Some? then Localized(sym, t, Addresses(find(t).value)) else [UNKNOWN_FRAME]
  }

  // The reader has these traces at the paths that the finder gives
  ghost predicate Named(sym: nat -> seq<Frame>, find: nat -> Option<seq<nat>>, traces: set<nat>, located: map<nat,
                        seq<Frame>>) {
    forall t :: t in traces ==> PathOf(located, t) == NamedPath(sym, find, t)
  }

  // The traces whose path by the finder is in a region
  ghost function Falling(sym: nat -> seq<Frame>, find: nat -> Option<seq<nat>>, r: Region): (keep: nat -> bool) {
    (t: nat) => In(r, NamedPath(sym, find, t))
  }

  lemma StackedOnly(find: nat -> Option<seq<nat>>, table: seq<nat>, done: set<nat>, others: set<nat>,
                    stacks: seq<Stack>)
    requires Stacked(find, table, done, stacks) && done !! others
    ensures StacksAvoid(stacks, others)
  {
    forall s | s in stacks ensures s.traceId !in others {
      assert StackOk(find, table, done, s);
    }
  }

  // A flush names the traces that it writes for the first time, and leaves those written before where they are
  lemma FlushNames(sym: nat -> seq<Frame>, find: nat -> Option<seq<nat>>, ids: seq<nat>, table: map<nat, nat>,
                   done: set<nat>, written: set<nat>, located: map<nat, seq<Frame>>, stacks: seq<Stack>)
    requires TableSync(ids, table) && Stacked(find, ids, done, stacks) && done !! written && located.Keys <= written
    ensures var after := ApplyStacks(sym, table, located, stacks);
      && after.Keys <= written + done && Named(sym, find, done, after)
      && forall t :: t in written ==> PathOf(after, t) == PathOf(located, t)
  {
    var after := ApplyStacks(sym, table, located, stacks);
    StackedOnly(find, ids, done, written, stacks);
    forall t | t in written ensures PathOf(after, t) == PathOf(located, t) {
      PathKept(sym, table, located, stacks, t);
    }
    forall t | t in done ensures PathOf(after, t) == NamedPath(sym, find, t) {
      if find(t).Some? {
        StacksLocate(sym, find, ids, table, done, located, stacks, t);
      } else {
        forall s | s in stacks ensures s.traceId != t {
          assert StackOk(find, ids, done, s);
        }
        PathKept(sym, table, located, stacks, t);
      }
    }
    forall t | t in after ensures t in written + done {
      if t !in written + done {
        StackedOnly(find, ids, done, {t}, stacks);
        PathKept(sym, table, located, stacks, t);
        assert false;
      }
    }
  }

  // ----- one delivery

  lemma {:induction false} ChangedKeys<T>(last: map<nat, T>, list: seq<Changed<T>>, more: set<nat>)
    requires forall c :: c in list ==> c.traceId in more
    ensures ApplyChanged(last, list).Keys <= last.Keys + more
    decreases |list|
  {
    if list != [] {
      assert list[|list| - 1] in list;
      ChangedKeys(last, list[..|list| - 1], more);
    }
  }

  // What is known of which traces: a value only of written traces, a path only of written traces
  ghost predicate Known<T>(local: map<nat, T>, changed: set<nat>, written: set<nat>, last: map<nat, T>,
                           located: map<nat, seq<Frame>>) {
    local.Keys <= changed + written && last.Keys <= written && located.Keys <= written
  }

  // What both sides agree on between events
  ghost predicate Linked<T(!new)>(writer: ProtoWriter<T>, reader: Processor<T>)
    reads writer, reader, reader.graph
  {
    && writer.Valid() && reader.Valid() && reader.Quiet() && writer.g == reader.g
    && Below(writer.local, TRACE_IDS)
    && writer.total == Total(writer.g, writer.local, TRACE_IDS)
    && InSync(writer.g, writer.local, writer.changed, reader.last)
    && TableSync(writer.table, reader.table)
    && Known(writer.local, writer.changed, writer.written, reader.last, reader.located)
    && Telescoped(reader.g, reader.located, reader.last, reader.posts)
  }

  // Flushes a snapshot and processes it
  method Deliver<T(!new)>(writer: ProtoWriter<T>, reader: Processor<T>, timestamp: nat, find: nat -> Option<seq<nat>>)
    returns (sent: T, seen: T)
    requires Linked(writer, reader) && timestamp > reader.lastTimestamp
    modifies writer, reader, reader.graph
    ensures Linked(writer, reader) && reader.lastTimestamp == timestamp
    ensures sent == writer.total == old(writer.total) && seen == reader.graph.nodes[0].agg.total
    ensures seen == sent
    ensures writer.changed == {} && writer.written == old(writer.written) + old(writer.changed)
    ensures writer.local == old(writer.local)
    ensures Named(reader.sym, find, old(writer.changed) - old(writer.written), reader.located)
    ensures forall t :: t in old(writer.written) ==> PathOf(reader.located, t) == old(PathOf(reader.located, t))
  {
    ghost var changed, before, a := writer.changed, writer.table, StateOf(reader).state;
    ghost var done, written := writer.changed - writer.written, writer.written;
    var snapshot := writer.FlushData(timestamp, find);
    FlushSyncs(writer.g, writer.local, changed, a.last, snapshot.changed);
    TableFollows(before, writer.table, snapshot.ptrs, a.table);
    ChangedKeys(a.last, snapshot.changed, changed);
    var skipped := reader.Process(snapshot);
    assert AccountStep(reader.g, reader.sym, a, snapshot, StateOf(reader).state);
    FlushNames(reader.sym, find, writer.table, reader.table, done, written, a.located, snapshot.stacks);
    StackedOnly(find, writer.table, done, a.last.Keys, snapshot.stacks);
    SnapshotKeeps(reader.g, reader.sym, a, snapshot, StateOf(reader).state);
    sent, seen := snapshot.total, reader.graph.nodes[0].agg.total;
  }

  // With nothing left to flush, the reader's root has the writer's total
  lemma RootIsSent<T(!new)>(writer: ProtoWriter<T>, reader: Processor<T>)
    requires Linked(writer, reader) && writer.changed == {}
    ensures reader.graph.nodes[0].agg.total == writer.total
  {
    reader.RootIsTotal();
    assert Column(writer.g, reader.last, TRACE_IDS) == Column(writer.g, writer.local, TRACE_IDS);
  }

  lemma TracesAgree<T(!new)>(writer: ProtoWriter<T>, reader: Processor<T>, find: nat -> Option<seq<nat>>, r: Region)
    requires Linked(writer, reader) && writer.changed == {}
    requires Named(reader.sym, find, writer.written, reader.located)
    ensures Total(reader.g, Only(reader.last, Inside(reader.located, r)), TRACE_IDS)
      == Total(writer.g, Only(writer.local, Falling(reader.sym, find, r)), TRACE_IDS)
  {
    OnlySame(reader.last, Inside(reader.located, r), Falling(reader.sym, find, r));
    OnlyTotal(writer.g, reader.last, writer.local, Falling(reader.sym, find, r), TRACE_IDS);
  }

  // With nothing left to flush, every node's own value is the sum of the writer's cumulative values of the traces
  // with the node's path, and its total is the sum over the traces whose path extends the node's
  lemma NodeIsSent<T(!new)>(writer: ProtoWriter<T>, reader: Processor<T>, find: nat -> Option<seq<nat>>, i: nat)
    requires Linked(writer, reader) && writer.changed == {} && i < |reader.graph.nodes|
    requires Named(reader.sym, find, writer.written, reader.located)
    ensures var node, path := reader.graph.nodes[i], Trace(reader.graph.nodes, reader.graph.edges, i);
      && Own(writer.g, node.agg) == Total(writer.g, Only(writer.local, Falling(reader.sym, find, At(path))), TRACE_IDS)
      && node.agg.total == Total(writer.g, Only(writer.local, Falling(reader.sym, find, Under(path))), TRACE_IDS)
  {
    var path := Trace(reader.graph.nodes, reader.graph.edges, i);
    NodeIsTraces(reader, i);
    TracesAgree(writer, reader, find, At(path));
    TracesAgree(writer, reader, find, Under(path));
  }

  // The sums of the writer's cumulative values
  ghost function SentSum<T>(g: Group<T>, local: map<nat, T>, sym: nat -> seq<Frame>, find: nat -> Option<seq<nat>>)
    : (sum: Region -> T)
  {
    (r: Region) => Total(g, Only(local, Falling(sym, find, r)), TRACE_IDS)
  }

  // The same for frames: over the traces that contain the frame, and over those that it ends as new
  lemma FrameIsSent<T(!new)>(writer: ProtoWriter<T>, reader: Processor<T>, find: nat -> Option<seq<nat>>, f: Frame)
    requires Linked(writer, reader) && writer.changed == {}
    requires Named(reader.sym, find, writer.written, reader.located)
    ensures FrameTotal(writer.g, reader.graph.frames, f)
      == TotalBy(writer.g, f, SentSum(writer.g, writer.local, reader.sym, find))
    ensures FrameOwn(writer.g, reader.graph.frames, f)
      == OwnBy(writer.g, f, SentSum(writer.g, writer.local, reader.sym, find))
  {
    FrameIsTraces(reader, f);
    forall r ensures TraceSum(reader.g, reader.located, reader.last)(r)
                  == SentSum(writer.g, writer.local, reader.sym, find)(r)
    {
      TracesAgree(writer, reader, find, r);
    }
  }

  // ----- whole runs

  datatype Event<T> =
    | Account(summaries: map<nat, T>, total: T)
    | Flush(timestamp: nat, find: nat -> Option<seq<nat>>)

  // Drained tallies come with their total, and the clock moves forward between flushes
  ghost predicate Proper<T>(g: Group<T>, events: seq<Event<T>>, now: nat)
    decreases |events|
  {
    events == [] ||
    match events[0]
    case Account(summaries, total) =>
      Below(summaries, TRACE_IDS) && total == Total(g, summaries, TRACE_IDS) && Proper(g, events[1..], now)
    case Flush(timestamp, _) =>
      timestamp > now && Proper(g, events[1..], timestamp)
  }

  // The sums of everything accounted so far, at each flush
  function RunningTotals<T>(g: Group<T>, events: seq<Event<T>>, sofar: T): (r: seq<T>)
    decreases |events|
  {
    if events == [] then []
    else
      match events[0]
      case Account(_, total) => RunningTotals(g, events[1..], g.add(sofar, total))
      case Flush(_, _) => [sofar] + RunningTotals(g, events[1..], sofar)
  }

  // The sum of everything accounted for a trace, and of all accounted totals
  function Accrued<T>(g: Group<T>, events: seq<Event<T>>, t: nat, sofar: T): (r: T)
    decreases |events|
  {
    if events == [] then sofar
    else Accrued(g, events[1..], t, if events[0].Account? then g.add(sofar, Get(g, events[0].summaries, t)) else sofar)
  }

  function AccruedTotal<T>(g: Group<T>, events: seq<Event<T>>, sofar: T): (r: T)
    decreases |events|
  {
    if events == [] then sofar
    else AccruedTotal(g, events[1..], if events[0].Account? then g.add(sofar, events[0].total) else sofar)
  }

  // Every trace's value has grown by everything accounted for it
  ghost predicate Accrues<T>(g: Group<T>, events: seq<Event<T>>, before: map<nat, T>, after: map<nat, T>) {
    forall t {:trigger Get(g, after, t)} :: Get(g, after, t) == Accrued(g, events, t, Get(g, before, t))
  }

  lemma AccruesFirst<T(!new)>(g: Group<T>, events: seq<Event<T>>, before: map<nat, T>, middle: map<nat, T>,
                              after: map<nat, T>)
    requires events != [] && Accrues(g, events[1..], middle, after)
    requires if events[0].Account? then Merged(g, before, events[0].summaries, middle) else middle == before
    ensures Accrues(g, events, before, after)
  {
    forall t ensures Get(g, after, t) == Accrued(g, events, t, Get(g, before, t)) {
      assert Get(g, after, t) == Accrued(g, events[1..], t, Get(g, middle, t));
    }
  }

  ghost predicate EndsFlushed<T>(events: seq<Event<T>>) {
    events != [] && events[|events| - 1].Flush?
  }

  // Two lookups give the same for these traces
  ghost predicate SameFor(a: nat -> Option<seq<nat>>, b: nat -> Option<seq<nat>>, traces: set<nat>) {
    forall t :: t in traces ==> a(t) == b(t)
  }

  // Every flush looks a trace up the first time that it writes it; what it gets then is what `find` gives
  ghost predicate Agrees<T(!new)>(events: seq<Event<T>>, find: nat -> Option<seq<nat>>, changed: set<nat>,
                                  written: set<nat>)
    decreases |events|
  {
    events == [] ||
    match events[0]
    case Account(summaries, _) => Agrees(events[1..], find, changed + summaries.Keys, written)
    case Flush(_, lookup) =>
      SameFor(lookup, find, changed - written) && Agrees(events[1..], find, {}, written + changed)
  }

  lemma NamedMore(sym: nat -> seq<Frame>, lookup: nat -> Option<seq<nat>>, find: nat -> Option<seq<nat>>,
                  changed: set<nat>, written: set<nat>, before: map<nat, seq<Frame>>, after: map<nat, seq<Frame>>)
    requires Named(sym, find, written, before) && Named(sym, lookup, changed - written, after)
    requires SameFor(lookup, find, changed - written)
    requires forall t :: t in written ==> PathOf(after, t) == PathOf(before, t)
    ensures Named(sym, find, written + changed, after)
  {
    forall t | t in written + changed ensures PathOf(after, t) == NamedPath(sym, find, t) {
      if t !in written {
        assert t in changed - written;
      }
    }
  }

  lemma RestOfRun<T(!new)>(events: seq<Event<T>>)
    requires events != []
    ensures EndsFlushed(events) <==> if |events| == 1 then events[0].Flush? else EndsFlushed(events[1..])
  {
  }

  lemma AccountLinks<T(!new)>(g: Group<T>, before: map<nat, T>, changed: set<nat>, summaries: map<nat, T>,
                              after: map<nat, T>, last: map<nat, T>)
    requires Lawful(g) && InSync(g, before, changed, last) && Merged(g, before, summaries, after)
    ensures InSync(g, after, changed + summaries.Keys, last)
    ensures Total(g, after, TRACE_IDS) == g.add(Total(g, before, TRACE_IDS), Total(g, summaries, TRACE_IDS))
  {
    TotalMerged(g, before, summaries, after, TRACE_IDS);
    forall t | t !in changed + summaries.Keys ensures Get(g, last, t) == Get(g, after, t) {
      Zero(g, Get(g, before, t));
    }
  }

  // One event on both sides
  method Handle<T(!new)>(writer: ProtoWriter<T>, reader: Processor<T>, event: Event<T>) returns (sent: seq<T>,
                                                                                                 seen: seq<T>)
    requires Linked(writer, reader)
    requires event.Account? ==> Below(event.summaries, TRACE_IDS)
    requires event.Account? ==> event.total == Total(writer.g, event.summaries, TRACE_IDS)
    requires event.Flush? ==> event.timestamp > reader.lastTimestamp
    modifies writer, reader, reader.graph
    ensures Linked(writer, reader)
    ensures event.Account? ==> sent == seen == [] && reader.lastTimestamp == old(reader.lastTimestamp)
    ensures event.Account? ==> writer.total == writer.g.add(old(writer.total), event.total)
    ensures event.Account? ==> Merged(writer.g, old(writer.local), event.summaries, writer.local)
    ensures event.Account? ==> writer.written == old(writer.written) && reader.located == old(reader.located)
    ensures event.Account? ==> writer.changed == old(writer.changed) + event.summaries.Keys
    ensures event.Flush? ==> sent == seen == [writer.total] && writer.total == old(writer.total)
    ensures event.Flush? ==> reader.lastTimestamp == event.timestamp
    ensures event.Flush? ==> writer.local == old(writer.local) && writer.changed == {}
    ensures event.Flush? ==> writer.written == old(writer.written) + old(writer.changed)
    ensures event.Flush? ==> Named(reader.sym, event.find, old(writer.changed) - old(writer.written), reader.located)
    ensures event.Flush? ==>
      forall t :: t in old(writer.written) ==> PathOf(reader.located, t) == old(PathOf(reader.located, t))
  {
    match event
    case Account(summaries, total) =>
      ghost var before, changed := writer.local, writer.changed;
      writer.AccountSnapshot(summaries, total);
      AccountLinks(writer.g, before, changed, summaries, writer.local, reader.last);
      sent, seen := [], [];
    case Flush(timestamp, find) =>
      var s, r := Deliver(writer, reader, timestamp, find);
      sent, seen := [s], [r];
  }

  // In every run the reader sees what the writer sent, and that is the sum of everything accounted so far
  method RunFrom<T(!new)>(writer: ProtoWriter<T>, reader: Processor<T>, events: seq<Event<T>>,
                          ghost find: nat -> Option<seq<nat>>)
    returns (sent: seq<T>, seen: seq<T>)
    requires Linked(writer, reader) && Proper(writer.g, events, reader.lastTimestamp)
    modifies writer, reader, reader.graph
    ensures sent == RunningTotals(writer.g, events, old(writer.total))
    ensures seen == sent
    ensures Linked(writer, reader)
    ensures writer.total == AccruedTotal(writer.g, events, old(writer.total))
    ensures Accrues(writer.g, events, old(writer.local), writer.local)
    ensures events == [] ==> writer.changed == old(writer.changed)
    ensures EndsFlushed(events) ==> writer.changed == {}
    ensures old(Agrees(events, find, writer.changed, writer.written))
      && old(Named(reader.sym, find, writer.written, reader.located))
      ==> Named(reader.sym, find, writer.written, reader.located)
    decreases |events|
  {
    if events == [] {
      return [], [];
    }
    var s, r := Handle(writer, reader, events[0]);
    ghost var middle := writer.local;
    if events[0].Flush? && old(Agrees(events, find, writer.changed, writer.written))
      && old(Named(reader.sym, find, writer.written, reader.located)) {
      NamedMore(reader.sym, events[0].find, find, old(writer.changed), old(writer.written), old(reader.located),
                reader.located);
    }
    RestOfRun(events);
    sent, seen := RunFrom(writer, reader, events[1..], find);
    AccruesFirst(writer.g, events, old(writer.local), middle, writer.local);
    sent, seen := s + sent, r + seen;
  }

  lemma NothingToTelescope<T(!new)>(g: Group<T>)
    requires Lawful(g)
    ensures Telescoped(g, map[], map[], [])
  {
    forall r ensures TelescopedAt(g, map[], map[], [], r) {
      var nothing: map<nat, T> := map[];
      assert Only(nothing, Inside(map[], r)) == nothing;
      TotalOfEmpty(g, TRACE_IDS);
    }
  }

  // A run from new writer and reader. After a last flush the reader's root has everything that was accounted.
  method Run<T(!new)>(g: Group<T>, sym: nat -> seq<Frame>, events: seq<Event<T>>, ghost find: nat -> Option<seq<nat>>)
    returns (writer: ProtoWriter<T>, reader: Processor<T>, sent: seq<T>, seen: seq<T>)
    requires Lawful(g) && Proper(g, events, 0)
    ensures sent == RunningTotals(g, events, g.zero)
    ensures seen == sent
    ensures writer.g == g && reader.sym == sym && Linked(writer, reader)
    ensures writer.total == AccruedTotal(g, events, g.zero)
    ensures Accrues(g, events, map[], writer.local)
    ensures EndsFlushed(events) ==> writer.changed == {} && reader.graph.nodes[0].agg.total == writer.total
    ensures Agrees(events, find, {}, {}) ==> Named(sym, find, writer.written, reader.located)
  {
    writer := new ProtoWriter(g);
    reader := new Processor(g, sym);
    TotalOfEmpty(g, TRACE_IDS);
    NothingToTelescope(g);
    sent, seen := RunFrom(writer, reader, events, find);
    if EndsFlushed(events) {
      RootIsSent(writer, reader);
    }
  }
}
