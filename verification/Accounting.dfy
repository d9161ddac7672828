/**
 Concurrent accounting as a state machine. Every section that the profiler
 runs under a lock is one action; threads, the draining worker and thread exit
 interleave freely.

 The ledger records every allocation and free that was submitted. At every
 moment each entry of it is in exactly one place: in a tracker, in the
 postponed ring, in the hands of a thread that is applying a postponed
 operation, in the worker's hands, in the writer's cumulative tally, or among
 the operations that were skipped because the ring was full.
 */
module Accounting {
  import opened Groups
  import opened Tallies

  type TraceId = t: nat | t < TRACE_IDS

  type Size = x: nat | x < 0x1_0000_0000_0000_0000
  type Offset = x: nat | x < 0x1_0000_0000

  datatype Info = Info(size: Size, offset: Offset, traceId: TraceId)

  // What an allocation and a free contribute to a summary
  datatype Costs<!T> = Costs(alloc: Info -> T, free: Info -> T)

  datatype Op = Alloc(info: Info) | Free(info: Info)

  function Cost<T>(c: Costs<T>, op: Op): (r: T) {
    match op
    case Alloc(info) => c.alloc(info)
    case Free(info) => c.free(info)
  }

  // A tracker's tally per trace, and their running total
  datatype Tracker<T> = Tracker(summaries: map<nat, T>, total: T)

  function Fresh<T>(g: Group<T>): (r: Tracker<T>) {
    Tracker(map[], g.zero)
  }

  function Track<T>(g: Group<T>, c: Costs<T>, t: Tracker<T>, op: Op): (r: Tracker<T>) {
    Tracker(Put(g, t.summaries, op.info.traceId, Cost(c, op)), g.add(t.total, Cost(c, op)))
  }

  // Which tracker a thread uses. A returning thread already uses the tracker
  // for exiting threads but has not yet given its own one back.
  datatype Local = Unset | Own(id: nat) | Returning(id: nat) | Exited

  // Where a thread is in the accounting of an operation of the profiler itself
  datatype Inner = Idle | Draining | Delayed(op: Op) | Ready

  datatype Thread = Thread(local: Local, inner: Inner)

  // The worker visits the thread trackers in order, then the inner and the exiting one
  datatype Visit = Resting | Visiting(next: nat) | Holding(next: nat)

  datatype Worker<T> = Worker(visit: Visit, hand: Tracker<T>)

  datatype State<T> = State(
    trackers: seq<Tracker<T>>,
    finished: seq<nat>,
    exiting: Tracker<T>,
    inner: Tracker<T>,
    postponed: seq<Op>,
    capacity: nat,
    threads: seq<Thread>,
    worker: Worker<T>,
    written: Tracker<T>,
    skipped: seq<Op>,
    ledger: Tracker<T>)

  function Start<T>(g: Group<T>, capacity: nat): (s: State<T>) {
    State([], [], Fresh(g), Fresh(g), [], capacity, [], Worker(Resting, Fresh(g)), Fresh(g), [], Fresh(g))
  }

  datatype Action =
    | Spawn
    | Register(thread: nat)
    | External(thread: nat, op: Op)
    | ExternalRealloc(thread: nat, prev: Info, info: Info)
    | InnerEnter(thread: nat)
    | InnerPop(thread: nat)
    | InnerApply(thread: nat)
    | InnerSeeEmpty(thread: nat)
    | InnerTrack(thread: nat, op: Op)
    | InnerRealloc(thread: nat, prev: Info, info: Info)
    | Postpone(thread: nat, op: Op)
    | BeginExit(thread: nat)
    | GiveBack(thread: nat)
    | DrainBegin
    | DrainConsume
    | DrainAccount
    | DrainEnd

  // The lock on the tracker list is free
  predicate Unlocked<T>(s: State<T>) {
    s.worker.visit.Resting?
  }

  predicate OwnsTracker(t: Thread, n: nat) {
    t.local.Own? ==> t.local.id < n
  }

  predicate Enabled<T>(s: State<T>, a: Action) {
    match a
    case Spawn => true
    case Register(k) => k < |s.threads| && s.threads[k].local.Unset? && Unlocked(s)
    case External(k, _) => k < |s.threads| && !s.threads[k].local.Unset? && OwnsTracker(s.threads[k], |s.trackers|)
    case ExternalRealloc(k, _, _) =>
      k < |s.threads| && !s.threads[k].local.Unset? && OwnsTracker(s.threads[k], |s.trackers|)
    case InnerEnter(k) => k < |s.threads| && s.threads[k].inner.Idle?
    case InnerPop(k) => k < |s.threads| && s.threads[k].inner.Draining? && s.postponed != []
    case InnerApply(k) => k < |s.threads| && s.threads[k].inner.Delayed?
    case InnerSeeEmpty(k) => k < |s.threads| && s.threads[k].inner.Draining? && s.postponed == []
    case InnerTrack(k, _) => k < |s.threads| && s.threads[k].inner.Ready?
    case InnerRealloc(k, _, _) => k < |s.threads| && s.threads[k].inner.Ready?
    case Postpone(k, _) => k < |s.threads| && !s.threads[k].inner.Idle?
    case BeginExit(k) => k < |s.threads| && s.threads[k].local.Own?
    case GiveBack(k) => k < |s.threads| && s.threads[k].local.Returning? && Unlocked(s)
    case DrainBegin => s.worker.visit.Resting?
    case DrainConsume => s.worker.visit.Visiting? && s.worker.visit.next < |s.trackers| + 2
    case DrainAccount => s.worker.visit.Holding?
    case DrainEnd => s.worker.visit.Visiting? && s.worker.visit.next == |s.trackers| + 2
  }

  function SetLocal<T>(s: State<T>, k: nat, l: Local): (r: State<T>)
    requires k < |s.threads|
  {
    s.(threads := s.threads[k := s.threads[k].(local := l)])
  }

  function SetInner<T>(s: State<T>, k: nat, i: Inner): (r: State<T>)
    requires k < |s.threads|
  {
    s.(threads := s.threads[k := s.threads[k].(inner := i)])
  }

  function Submit<T>(g: Group<T>, c: Costs<T>, s: State<T>, op: Op): (r: State<T>) {
    s.(ledger := Track(g, c, s.ledger, op))
  }

  // Accounts an operation on the tracker of a thread
  function OnThread<T>(g: Group<T>, c: Costs<T>, s: State<T>, k: nat, op: Op): (r: State<T>)
    requires k < |s.threads| && OwnsTracker(s.threads[k], |s.trackers|)
  {
    var l := s.threads[k].local;
    if l.Own? then s.(trackers := s.trackers[l.id := Track(g, c, s.trackers[l.id], op)])
    else s.(exiting := Track(g, c, s.exiting, op))
  }

  function OnInner<T>(g: Group<T>, c: Costs<T>, s: State<T>, op: Op): (r: State<T>) {
    s.(inner := Track(g, c, s.inner, op))
  }

  // The tracker the worker visits next
  function Visited<T>(s: State<T>, k: nat): (t: Tracker<T>)
    requires k < |s.trackers| + 2
  {
    if k < |s.trackers| then s.trackers[k] else if k == |s.trackers| then s.inner else s.exiting
  }

  // The tallies are swapped and what the worker held before is erased; the totals are added
  function Consume<T>(g: Group<T>, hand: Tracker<T>, t: Tracker<T>): (r: Tracker<T>) {
    Tracker(t.summaries, g.add(hand.total, t.total))
  }

  function Emptied<T>(g: Group<T>, s: State<T>, k: nat): (r: State<T>)
    requires k < |s.trackers| + 2
  {
    if k < |s.trackers| then s.(trackers := s.trackers[k := Fresh(g)])
    else if k == |s.trackers| then s.(inner := Fresh(g))
    else s.(exiting := Fresh(g))
  }

  function Merge<T>(g: Group<T>, a: map<nat, T>, b: map<nat, T>): (r: map<nat, T>)
    ensures r.Keys == a.Keys + b.Keys
  {
    map i | i in a.Keys + b.Keys :: if i in a && i in b then g.add(a[i], b[i]) else if i in a then a[i] else b[i]
  }

  function Do<T>(g: Group<T>, c: Costs<T>, s: State<T>, a: Action): (r: State<T>)
    requires Enabled(s, a)
  {
    match a
    case Spawn => s.(threads := s.threads + [Thread(Unset, Idle)])
    case Register(k) =>
      if s.finished != [] then
        var id := s.finished[|s.finished| - 1];
        SetLocal(s.(finished := s.finished[..|s.finished| - 1]), k, Own(id))
      else
        SetLocal(s.(trackers := s.trackers + [Fresh(g)]), k, Own(|s.trackers|))
    case External(k, op) => Submit(g, c, OnThread(g, c, s, k, op), op)
    case ExternalRealloc(k, prev, info) =>
      var s1 := Submit(g, c, OnThread(g, c, s, k, Free(prev)), Free(prev));
      Submit(g, c, OnThread(g, c, s1, k, Alloc(info)), Alloc(info))
    case InnerEnter(k) => SetInner(s, k, Draining)
    case InnerPop(k) => SetInner(s.(postponed := s.postponed[1..]), k, Delayed(s.postponed[0]))
    case InnerApply(k) => SetInner(OnInner(g, c, s, s.threads[k].inner.op), k, Draining)
    case InnerSeeEmpty(k) => SetInner(s, k, Ready)
    case InnerTrack(k, op) => SetInner(Submit(g, c, OnInner(g, c, s, op), op), k, Idle)
    case InnerRealloc(k, prev, info) =>
      var s1 := Submit(g, c, OnInner(g, c, s, Free(prev)), Free(prev));
      SetInner(Submit(g, c, OnInner(g, c, s1, Alloc(info)), Alloc(info)), k, Idle)
    case Postpone(k, op) =>
      if |s.postponed| >= s.capacity then Submit(g, c, s.(skipped := s.skipped + [op]), op)
      else Submit(g, c, s.(postponed := s.postponed + [op]), op)
    case BeginExit(k) => SetLocal(s, k, Returning(s.threads[k].local.id))
    case GiveBack(k) => SetLocal(s.(finished := s.finished + [s.threads[k].local.id]), k, Exited)
    case DrainBegin => s.(worker := s.worker.(visit := Visiting(0)))
    case DrainConsume =>
      var k := s.worker.visit.next;
      Emptied(g, s, k).(worker := Worker(Holding(k), Consume(g, s.worker.hand, Visited(s, k))))
    case DrainAccount =>
      s.(written := Tracker(Merge(g, s.written.summaries, s.worker.hand.summaries),
                            g.add(s.written.total, s.worker.hand.total)),
         worker := Worker(Visiting(s.worker.visit.next + 1), Fresh(g)))
    case DrainEnd => s.(worker := s.worker.(visit := Resting))
  }

  // ----- where everything is

  ghost function OpTerm<T>(g: Group<T>, c: Costs<T>, op: Op, t: nat): (r: T) {
    if op.info.traceId == t then Cost(c, op) else g.zero
  }

  ghost function TrackerTerms<T>(g: Group<T>, trackers: seq<Tracker<T>>, t: nat): (r: seq<T>)
    ensures |r| == |trackers| && forall i :: 0 <= i < |trackers| ==> r[i] == Get(g, trackers[i].summaries, t)
  {
    seq(|trackers|, i requires 0 <= i < |trackers| => Get(g, trackers[i].summaries, t))
  }

  ghost function OpTerms<T>(g: Group<T>, c: Costs<T>, ops: seq<Op>, t: nat): (r: seq<T>)
    ensures |r| == |ops| && forall i :: 0 <= i < |ops| ==> r[i] == OpTerm(g, c, ops[i], t)
  {
    seq(|ops|, i requires 0 <= i < |ops| => OpTerm(g, c, ops[i], t))
  }

  ghost function ThreadTerm<T>(g: Group<T>, c: Costs<T>, th: Thread, t: nat): (r: T) {
    if th.inner.Delayed? then OpTerm(g, c, th.inner.op, t) else g.zero
  }

  ghost function ThreadTerms<T>(g: Group<T>, c: Costs<T>, threads: seq<Thread>, t: nat): (r: seq<T>)
    ensures |r| == |threads| && forall i :: 0 <= i < |threads| ==> r[i] == ThreadTerm(g, c, threads[i], t)
  {
    seq(|threads|, i requires 0 <= i < |threads| => ThreadTerm(g, c, threads[i], t))
  }

  // What is where, for one trace
  ghost function Parts<T>(g: Group<T>, c: Costs<T>, s: State<T>, t: nat): (r: seq<T>)
    ensures |r| == 8
  {
    [ Sum(g, TrackerTerms(g, s.trackers, t)),
      Get(g, s.exiting.summaries, t),
      Get(g, s.inner.summaries, t),
      Sum(g, OpTerms(g, c, s.postponed, t)),
      Sum(g, ThreadTerms(g, c, s.threads, t)),
      Get(g, s.worker.hand.summaries, t),
      Get(g, s.written.summaries, t),
      Sum(g, OpTerms(g, c, s.skipped, t)) ]
  }

  ghost predicate ConservedAt<T>(g: Group<T>, c: Costs<T>, s: State<T>, t: nat) {
    Sum(g, Parts(g, c, s, t)) == Get(g, s.ledger.summaries, t)
  }

  ghost predicate Conserved<T>(g: Group<T>, c: Costs<T>, s: State<T>) {
    forall t :: ConservedAt(g, c, s, t)
  }

  // ----- elementary changes of the parts

  lemma MovePart<T(!new)>(g: Group<T>, p: seq<T>, q: seq<T>, k: nat, l: nat, d: T)
    requires Lawful(g) && |p| == |q| && k < |p| && l < |p| && k != l
    requires p[k] == g.add(q[k], d) && q[l] == g.add(p[l], d)
    requires forall i :: 0 <= i < |p| && i != k && i != l ==> p[i] == q[i]
    ensures Sum(g, p) == Sum(g, q)
  {
    var mid := p[l := q[l]];
    SumAdd(g, p, mid, l, d);
    SumAdd(g, q, mid, k, d);
    Cancel(g, Sum(g, p), Sum(g, q), d);
  }

  lemma TrackAdds<T(!new)>(g: Group<T>, c: Costs<T>, tr: Tracker<T>, op: Op, t: nat)
    requires Lawful(g)
    ensures Get(g, Track(g, c, tr, op).summaries, t) == g.add(Get(g, tr.summaries, t), OpTerm(g, c, op, t))
  {
    PutAdds(g, tr.summaries, op.info.traceId, Cost(c, op));
    Zero(g, Get(g, tr.summaries, t));
  }

  lemma TrackerAdds<T(!new)>(g: Group<T>, c: Costs<T>, trackers: seq<Tracker<T>>, i: nat, op: Op, t: nat)
    requires Lawful(g) && i < |trackers|
    ensures Sum(g, TrackerTerms(g, trackers[i := Track(g, c, trackers[i], op)], t))
      == g.add(Sum(g, TrackerTerms(g, trackers, t)), OpTerm(g, c, op, t))
  {
    TrackAdds(g, c, trackers[i], op, t);
    var after := trackers[i := Track(g, c, trackers[i], op)];
    SumAdd(g, TrackerTerms(g, trackers, t), TrackerTerms(g, after, t), i, OpTerm(g, c, op, t));
  }

  lemma OpAppended<T(!new)>(g: Group<T>, c: Costs<T>, ops: seq<Op>, op: Op, t: nat)
    ensures Sum(g, OpTerms(g, c, ops + [op], t)) == g.add(Sum(g, OpTerms(g, c, ops, t)), OpTerm(g, c, op, t))
  {
    assert OpTerms(g, c, ops + [op], t) == OpTerms(g, c, ops, t) + [OpTerm(g, c, op, t)];
    SumPush(g, OpTerms(g, c, ops, t), OpTerm(g, c, op, t));
  }

  lemma OpPopped<T(!new)>(g: Group<T>, c: Costs<T>, ops: seq<Op>, t: nat)
    requires Lawful(g) && ops != []
    ensures Sum(g, OpTerms(g, c, ops, t)) == g.add(Sum(g, OpTerms(g, c, ops[1..], t)), OpTerm(g, c, ops[0], t))
  {
    var d := OpTerm(g, c, ops[0], t);
    assert OpTerms(g, c, ops, t) == [d] + OpTerms(g, c, ops[1..], t);
    SumConcat(g, [d], OpTerms(g, c, ops[1..], t));
    SumPush(g, [], d);
    assert [] + [d] == [d];
    Zero(g, d);
    Comm(g, d, Sum(g, OpTerms(g, c, ops[1..], t)));
  }

  // A thread's share changes from `x` to `x + d`
  lemma ThreadAdds<T(!new)>(g: Group<T>, c: Costs<T>, threads: seq<Thread>, k: nat, th: Thread, t: nat, d: T)
    requires Lawful(g) && k < |threads|
    requires ThreadTerm(g, c, th, t) == g.add(ThreadTerm(g, c, threads[k], t), d)
    ensures Sum(g, ThreadTerms(g, c, threads[k := th], t)) == g.add(Sum(g, ThreadTerms(g, c, threads, t)), d)
  {
    SumAdd(g, ThreadTerms(g, c, threads, t), ThreadTerms(g, c, threads[k := th], t), k, d);
  }

  lemma ThreadSame<T(!new)>(g: Group<T>, c: Costs<T>, threads: seq<Thread>, k: nat, th: Thread, t: nat)
    requires k < |threads| && ThreadTerm(g, c, th, t) == ThreadTerm(g, c, threads[k], t)
    ensures ThreadTerms(g, c, threads[k := th], t) == ThreadTerms(g, c, threads, t)
  {
  }

  // Submitting an operation and putting it into one part
  lemma Submitted<T(!new)>(g: Group<T>, c: Costs<T>, s: State<T>, s': State<T>, op: Op, t: nat, k: nat)
    requires Lawful(g) && ConservedAt(g, c, s, t) && k < 8
    requires s'.ledger == Track(g, c, s.ledger, op)
    requires Parts(g, c, s', t) == Parts(g, c, s, t)[k := g.add(Parts(g, c, s, t)[k], OpTerm(g, c, op, t))]
    ensures ConservedAt(g, c, s', t)
  {
    TrackAdds(g, c, s.ledger, op, t);
    SumAdd(g, Parts(g, c, s, t), Parts(g, c, s', t), k, OpTerm(g, c, op, t));
  }

  lemma OnThreadConserves<T(!new)>(g: Group<T>, c: Costs<T>, s: State<T>, k: nat, op: Op)
    requires Lawful(g) && Conserved(g, c, s) && k < |s.threads| && OwnsTracker(s.threads[k], |s.trackers|)
    ensures Conserved(g, c, Submit(g, c, OnThread(g, c, s, k, op), op))
  {
    var s' := Submit(g, c, OnThread(g, c, s, k, op), op);
    forall t ensures ConservedAt(g, c, s', t) {
      assert ConservedAt(g, c, s, t);
      if s.threads[k].local.Own? {
        TrackerAdds(g, c, s.trackers, s.threads[k].local.id, op, t);
        Submitted(g, c, s, s', op, t, 0);
      } else {
        TrackAdds(g, c, s.exiting, op, t);
        Submitted(g, c, s, s', op, t, 1);
      }
    }
  }

  lemma OnInnerConserves<T(!new)>(g: Group<T>, c: Costs<T>, s: State<T>, op: Op)
    requires Lawful(g) && Conserved(g, c, s)
    ensures Conserved(g, c, Submit(g, c, OnInner(g, c, s, op), op))
  {
    var s' := Submit(g, c, OnInner(g, c, s, op), op);
    forall t ensures ConservedAt(g, c, s', t) {
      assert ConservedAt(g, c, s, t);
      TrackAdds(g, c, s.inner, op, t);
      Submitted(g, c, s, s', op, t, 2);
    }
  }

  lemma PostponeConserves<T(!new)>(g: Group<T>, c: Costs<T>, s: State<T>, k: nat, op: Op)
    requires Lawful(g) && Conserved(g, c, s) && Enabled(s, Postpone(k, op))
    ensures Conserved(g, c, Do(g, c, s, Postpone(k, op)))
  {
    var s' := Do(g, c, s, Postpone(k, op));
    forall t ensures ConservedAt(g, c, s', t) {
      assert ConservedAt(g, c, s, t);
      if |s.postponed| >= s.capacity {
        OpAppended(g, c, s.skipped, op, t);
        Submitted(g, c, s, s', op, t, 7);
      } else {
        OpAppended(g, c, s.postponed, op, t);
        Submitted(g, c, s, s', op, t, 3);
      }
    }
  }

  // Changing a thread's program position without touching a delayed operation
  lemma InnerConserves<T(!new)>(g: Group<T>, c: Costs<T>, s: State<T>, k: nat, th: Thread)
    requires Conserved(g, c, s) && k < |s.threads|
    requires (!th.inner.Delayed? && !s.threads[k].inner.Delayed?) || th.inner == s.threads[k].inner
    ensures Conserved(g, c, s.(threads := s.threads[k := th]))
  {
    var s' := s.(threads := s.threads[k := th]);
    forall t ensures ConservedAt(g, c, s', t) {
      assert ConservedAt(g, c, s, t);
      ThreadSame(g, c, s.threads, k, th, t);
      assert Parts(g, c, s', t) == Parts(g, c, s, t);
    }
  }

  lemma PopConserves<T(!new)>(g: Group<T>, c: Costs<T>, s: State<T>, k: nat)
    requires Lawful(g) && Conserved(g, c, s) && Enabled(s, InnerPop(k))
    ensures Conserved(g, c, Do(g, c, s, InnerPop(k)))
  {
    var s' := Do(g, c, s, InnerPop(k));
    forall t ensures ConservedAt(g, c, s', t) {
      assert ConservedAt(g, c, s, t);
      var d := OpTerm(g, c, s.postponed[0], t);
      OpPopped(g, c, s.postponed, t);
      Zero(g, d);
      ThreadAdds(g, c, s.threads, k, s'.threads[k], t, d);
      MovePart(g, Parts(g, c, s, t), Parts(g, c, s', t), 3, 4, d);
    }
  }

  lemma ApplyConserves<T(!new)>(g: Group<T>, c: Costs<T>, s: State<T>, k: nat)
    requires Lawful(g) && Conserved(g, c, s) && Enabled(s, InnerApply(k))
    ensures Conserved(g, c, Do(g, c, s, InnerApply(k)))
  {
    var s' := Do(g, c, s, InnerApply(k));
    var op := s.threads[k].inner.op;
    forall t ensures ConservedAt(g, c, s', t) {
      assert ConservedAt(g, c, s, t);
      var d := OpTerm(g, c, op, t);
      TrackAdds(g, c, s.inner, op, t);
      Zero(g, d);
      ThreadAdds(g, c, s'.threads, k, s.threads[k], t, d);
      assert s'.threads[k := s.threads[k]] == s.threads;
      MovePart(g, Parts(g, c, s, t), Parts(g, c, s', t), 4, 2, d);
    }
  }

  // ----- the worker

  // Between visits the worker's hand is empty, so that the swap erases nothing
  ghost predicate HandOk<T>(g: Group<T>, s: State<T>) {
    !s.worker.visit.Holding? ==> s.worker.hand == Fresh(g)
  }

  lemma TrackerEmptied<T(!new)>(g: Group<T>, trackers: seq<Tracker<T>>, k: nat, t: nat)
    requires Lawful(g) && k < |trackers|
    ensures Sum(g, TrackerTerms(g, trackers, t))
      == g.add(Sum(g, TrackerTerms(g, trackers[k := Fresh(g)], t)), Get(g, trackers[k].summaries, t))
  {
    var d := Get(g, trackers[k].summaries, t);
    Zero(g, d);
    SumAdd(g, TrackerTerms(g, trackers[k := Fresh(g)], t), TrackerTerms(g, trackers, t), k, d);
  }

  lemma ConsumeConservesAt<T(!new)>(g: Group<T>, c: Costs<T>, s: State<T>, t: nat)
    requires Lawful(g) && ConservedAt(g, c, s, t) && Enabled(s, DrainConsume) && HandOk(g, s)
    ensures ConservedAt(g, c, Do(g, c, s, DrainConsume), t)
  {
    var k := s.worker.visit.next;
    var d := Get(g, Visited(s, k).summaries, t);
    Zero(g, d);
    var from := if k < |s.trackers| then 0 else if k == |s.trackers| then 2 else 1;
    if k < |s.trackers| {
      TrackerEmptied(g, s.trackers, k, t);
    }
    MovePart(g, Parts(g, c, s, t), Parts(g, c, Do(g, c, s, DrainConsume), t), from, 5, d);
  }

  // Draining a tracker moves its tally into the worker's hand
  lemma ConsumeConserves<T(!new)>(g: Group<T>, c: Costs<T>, s: State<T>)
    requires Lawful(g) && Conserved(g, c, s) && Enabled(s, DrainConsume) && HandOk(g, s)
    ensures Conserved(g, c, Do(g, c, s, DrainConsume))
  {
    forall t ensures ConservedAt(g, c, Do(g, c, s, DrainConsume), t) {
      assert ConservedAt(g, c, s, t);
      ConsumeConservesAt(g, c, s, t);
    }
  }

  lemma MergeAdds<T(!new)>(g: Group<T>, a: map<nat, T>, b: map<nat, T>)
    requires Lawful(g)
    ensures Merged(g, a, b, Merge(g, a, b))
  {
    var m := Merge(g, a, b);
    forall i ensures Get(g, m, i) == g.add(Get(g, a, i), Get(g, b, i)) {
      Zero(g, Get(g, a, i));
      Zero(g, Get(g, b, i));
    }
  }

  // Accounting moves it on into the written tally
  lemma AccountConserves<T(!new)>(g: Group<T>, c: Costs<T>, s: State<T>)
    requires Lawful(g) && Conserved(g, c, s) && Enabled(s, DrainAccount)
    ensures Conserved(g, c, Do(g, c, s, DrainAccount))
  {
    var s' := Do(g, c, s, DrainAccount);
    MergeAdds(g, s.written.summaries, s.worker.hand.summaries);
    forall t ensures ConservedAt(g, c, s', t) {
      assert ConservedAt(g, c, s, t);
      var d := Get(g, s.worker.hand.summaries, t);
      Zero(g, d);
      assert Get(g, s'.written.summaries, t) == g.add(Get(g, s.written.summaries, t), d);
      MovePart(g, Parts(g, c, s, t), Parts(g, c, s', t), 5, 6, d);
    }
  }

  // ----- registration

  lemma NewTracker<T(!new)>(g: Group<T>, trackers: seq<Tracker<T>>, t: nat)
    requires Lawful(g)
    ensures Sum(g, TrackerTerms(g, trackers + [Fresh(g)], t)) == Sum(g, TrackerTerms(g, trackers, t))
  {
    assert TrackerTerms(g, trackers + [Fresh(g)], t) == TrackerTerms(g, trackers, t) + [g.zero];
    SumPush(g, TrackerTerms(g, trackers, t), g.zero);
    Zero(g, Sum(g, TrackerTerms(g, trackers, t)));
  }

  lemma RegisterConserves<T(!new)>(g: Group<T>, c: Costs<T>, s: State<T>, k: nat)
    requires Lawful(g) && Conserved(g, c, s) && Enabled(s, Register(k))
    ensures Conserved(g, c, Do(g, c, s, Register(k)))
  {
    var s' := Do(g, c, s, Register(k));
    forall t ensures ConservedAt(g, c, s', t) {
      assert ConservedAt(g, c, s, t);
      NewTracker(g, s.trackers, t);
      ThreadSame(g, c, s.threads, k, s'.threads[k], t);
      assert Parts(g, c, s', t) == Parts(g, c, s, t);
    }
  }

  lemma SpawnConserves<T(!new)>(g: Group<T>, c: Costs<T>, s: State<T>)
    requires Lawful(g) && Conserved(g, c, s)
    ensures Conserved(g, c, Do(g, c, s, Spawn))
  {
    var s' := Do(g, c, s, Spawn);
    forall t ensures ConservedAt(g, c, s', t) {
      assert ConservedAt(g, c, s, t);
      var terms := ThreadTerms(g, c, s.threads, t);
      assert ThreadTerms(g, c, s'.threads, t) == terms + [g.zero];
      SumPush(g, terms, g.zero);
      Zero(g, Sum(g, terms));
      assert Parts(g, c, s', t) == Parts(g, c, s, t);
    }
  }

  // Changes that move nothing
  lemma StillConserved<T(!new)>(g: Group<T>, c: Costs<T>, s: State<T>, s': State<T>)
    requires Conserved(g, c, s)
    requires s' == s.(finished := s'.finished, worker := s.worker.(visit := s'.worker.visit))
    ensures Conserved(g, c, s')
  {
    forall t ensures ConservedAt(g, c, s', t) {
      assert ConservedAt(g, c, s, t);
      assert Parts(g, c, s', t) == Parts(g, c, s, t);
    }
  }

  // Every action conserves
  lemma StepConserves<T(!new)>(g: Group<T>, c: Costs<T>, s: State<T>, a: Action)
    requires Lawful(g) && Conserved(g, c, s) && HandOk(g, s) && Enabled(s, a)
    ensures Conserved(g, c, Do(g, c, s, a)) && HandOk(g, Do(g, c, s, a))
  {
    var s' := Do(g, c, s, a);
    match a
    case Spawn => SpawnConserves(g, c, s);
    case Register(k) => RegisterConserves(g, c, s, k);
    case External(k, op) => OnThreadConserves(g, c, s, k, op);
    case ExternalRealloc(k, prev, info) =>
      OnThreadConserves(g, c, s, k, Free(prev));
      OnThreadConserves(g, c, Submit(g, c, OnThread(g, c, s, k, Free(prev)), Free(prev)), k, Alloc(info));
    case InnerEnter(k) => InnerConserves(g, c, s, k, s'.threads[k]);
    case InnerPop(k) => PopConserves(g, c, s, k);
    case InnerApply(k) => ApplyConserves(g, c, s, k);
    case InnerSeeEmpty(k) => InnerConserves(g, c, s, k, s'.threads[k]);
    case InnerTrack(k, op) =>
      OnInnerConserves(g, c, s, op);
      InnerConserves(g, c, Submit(g, c, OnInner(g, c, s, op), op), k, s'.threads[k]);
    case InnerRealloc(k, prev, info) =>
      var s1 := Submit(g, c, OnInner(g, c, s, Free(prev)), Free(prev));
      OnInnerConserves(g, c, s, Free(prev));
      OnInnerConserves(g, c, s1, Alloc(info));
      InnerConserves(g, c, Submit(g, c, OnInner(g, c, s1, Alloc(info)), Alloc(info)), k, s'.threads[k]);
    case Postpone(k, op) => PostponeConserves(g, c, s, k, op);
    case BeginExit(k) => InnerConserves(g, c, s, k, s'.threads[k]);
    case GiveBack(k) =>
      InnerConserves(g, c, s, k, s'.threads[k]);
      StillConserved(g, c, s.(threads := s'.threads), s');
    case DrainBegin => StillConserved(g, c, s, s');
    case DrainConsume => ConsumeConserves(g, c, s);
    case DrainAccount => AccountConserves(g, c, s);
    case DrainEnd => StillConserved(g, c, s, s');
  }
}
