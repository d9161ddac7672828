/**
 Invariants over whole runs of the accounting state machine: totals match
 tallies, no tracker has two owners, and the number of trackers is the peak
 number of threads that held one.
 */
module AccountingRuns {
  import opened Groups
  import opened Tallies
  import opened Accounting

  // ----- totals

  ghost predicate TotalOk<T>(g: Group<T>, tr: Tracker<T>) {
    tr.total == Total(g, tr.summaries, TRACE_IDS)
  }

  ghost predicate TotalsOk<T>(g: Group<T>, s: State<T>) {
    && (forall i :: 0 <= i < |s.trackers| ==> TotalOk(g, s.trackers[i]))
    && TotalOk(g, s.exiting) && TotalOk(g, s.inner) && TotalOk(g, s.worker.hand)
    && TotalOk(g, s.written) && TotalOk(g, s.ledger)
  }

  lemma FreshTotal<T(!new)>(g: Group<T>)
    requires Lawful(g)
    ensures TotalOk(g, Fresh(g))
  {
    TotalOfEmpty(g, TRACE_IDS);
  }

  lemma TrackTotal<T(!new)>(g: Group<T>, c: Costs<T>, tr: Tracker<T>, op: Op)
    requires Lawful(g) && TotalOk(g, tr)
    ensures TotalOk(g, Track(g, c, tr, op))
  {
    TotalPut(g, tr.summaries, op.info.traceId, Cost(c, op), TRACE_IDS);
  }

  lemma SubmitTotals<T(!new)>(g: Group<T>, c: Costs<T>, s: State<T>, op: Op)
    requires Lawful(g) && TotalsOk(g, s)
    ensures TotalsOk(g, Submit(g, c, s, op)) && TotalsOk(g, OnInner(g, c, s, op))
  {
    TrackTotal(g, c, s.ledger, op);
    TrackTotal(g, c, s.inner, op);
  }

  lemma ThreadTotals<T(!new)>(g: Group<T>, c: Costs<T>, s: State<T>, k: nat, op: Op)
    requires Lawful(g) && TotalsOk(g, s) && k < |s.threads| && OwnsTracker(s.threads[k], |s.trackers|)
    ensures TotalsOk(g, OnThread(g, c, s, k, op))
  {
    if s.threads[k].local.Own? {
      TrackTotal(g, c, s.trackers[s.threads[k].local.id], op);
    } else {
      TrackTotal(g, c, s.exiting, op);
    }
  }

  lemma DrainTotals<T(!new)>(g: Group<T>, c: Costs<T>, s: State<T>, a: Action)
    requires Lawful(g) && TotalsOk(g, s) && HandOk(g, s) && Enabled(s, a) && (a.DrainConsume? || a.DrainAccount?)
    ensures TotalsOk(g, Do(g, c, s, a))
  {
    FreshTotal(g);
    if a.DrainConsume? {
      Zero(g, Visited(s, s.worker.visit.next).total);
    } else {
      MergeAdds(g, s.written.summaries, s.worker.hand.summaries);
      var a, b := s.written.summaries, s.worker.hand.summaries;
      TotalMerged(g, a, b, Merge(g, a, b), TRACE_IDS);
    }
  }

  lemma StepTotals<T(!new)>(g: Group<T>, c: Costs<T>, s: State<T>, a: Action)
    requires Lawful(g) && TotalsOk(g, s) && HandOk(g, s) && Enabled(s, a)
    ensures TotalsOk(g, Do(g, c, s, a))
  {
    match a
    case Register(k) => FreshTotal(g);
    case External(k, op) =>
      ThreadTotals(g, c, s, k, op);
      SubmitTotals(g, c, OnThread(g, c, s, k, op), op);
    case ExternalRealloc(k, prev, info) =>
      ThreadTotals(g, c, s, k, Free(prev));
      SubmitTotals(g, c, OnThread(g, c, s, k, Free(prev)), Free(prev));
      var s1 := Submit(g, c, OnThread(g, c, s, k, Free(prev)), Free(prev));
      ThreadTotals(g, c, s1, k, Alloc(info));
      SubmitTotals(g, c, OnThread(g, c, s1, k, Alloc(info)), Alloc(info));
    case InnerApply(k) => SubmitTotals(g, c, s, s.threads[k].inner.op);
    case InnerTrack(k, op) =>
      SubmitTotals(g, c, s, op);
      SubmitTotals(g, c, OnInner(g, c, s, op), op);
    case InnerRealloc(k, prev, info) =>
      SubmitTotals(g, c, s, Free(prev));
      SubmitTotals(g, c, OnInner(g, c, s, Free(prev)), Free(prev));
      var s1 := Submit(g, c, OnInner(g, c, s, Free(prev)), Free(prev));
      SubmitTotals(g, c, s1, Alloc(info));
      SubmitTotals(g, c, OnInner(g, c, s1, Alloc(info)), Alloc(info));
    case Postpone(k, op) =>
      SubmitTotals(g, c, s.(skipped := s.skipped + [op]), op);
      SubmitTotals(g, c, s.(postponed := s.postponed + [op]), op);
    case DrainConsume => DrainTotals(g, c, s, a);
    case DrainAccount => DrainTotals(g, c, s, a);
    case _ =>
  }

  // ----- ownership of trackers

  predicate Holds(t: Thread) {
    t.local.Own? || t.local.Returning?
  }

  ghost function HeldCount(threads: seq<Thread>): (r: nat) {
    if threads == [] then 0
    else HeldCount(threads[..|threads| - 1]) + if Holds(threads[|threads| - 1]) then 1 else 0
  }

  ghost predicate HolderOk<T>(s: State<T>, k: nat)
    requires k < |s.threads| && Holds(s.threads[k])
  {
    s.threads[k].local.id < |s.trackers| && s.threads[k].local.id !in s.finished
  }

  // Every tracker is held by exactly one thread or is free, and is on the free list at most once
  ghost predicate OwnedOk<T>(s: State<T>) {
    && (forall k :: 0 <= k < |s.threads| && Holds(s.threads[k]) ==> HolderOk(s, k))
    && (forall i, j :: 0 <= i < j < |s.threads| && Holds(s.threads[i]) && Holds(s.threads[j])
          ==> s.threads[i].local.id != s.threads[j].local.id)
    && (forall i :: 0 <= i < |s.finished| ==> s.finished[i] < |s.trackers|)
    && (forall i, j :: 0 <= i < j < |s.finished| ==> s.finished[i] != s.finished[j])
    && |s.finished| + HeldCount(s.threads) == |s.trackers|
    && |s.postponed| <= s.capacity
  }

  lemma {:induction false} HeldAfter(threads: seq<Thread>, k: nat, t: Thread)
    requires k < |threads|
    ensures HeldCount(threads[k := t]) + (if Holds(threads[k]) then 1 else 0)
      == HeldCount(threads) + (if Holds(t) then 1 else 0)
  {
    var n := |threads| - 1;
    if k == n {
      assert threads[k := t][..n] == threads[..n];
    } else {
      assert threads[k := t][..n] == threads[..n][k := t];
      HeldAfter(threads[..n], k, t);
    }
  }

  lemma HeldAppended(threads: seq<Thread>, t: Thread)
    ensures HeldCount(threads + [t]) == HeldCount(threads) + if Holds(t) then 1 else 0
  {
    assert (threads + [t])[..|threads|] == threads;
  }

  lemma RegisterOwned<T(!new)>(g: Group<T>, c: Costs<T>, s: State<T>, k: nat)
    requires OwnedOk(s) && Enabled(s, Register(k))
    ensures OwnedOk(Do(g, c, s, Register(k)))
  {
    var s' := Do(g, c, s, Register(k));
    HeldAfter(s.threads, k, s'.threads[k]);
    var id := s'.threads[k].local.id;
    forall i | 0 <= i < |s.threads| && Holds(s.threads[i]) ensures s.threads[i].local.id != id {
      assert HolderOk(s, i);
    }
    forall i | 0 <= i < |s'.threads| && Holds(s'.threads[i]) ensures HolderOk(s', i) {
      if i != k {
        assert HolderOk(s, i);
      }
    }
  }

  lemma ExitOwned<T(!new)>(g: Group<T>, c: Costs<T>, s: State<T>, a: Action)
    requires OwnedOk(s) && Enabled(s, a) && (a.BeginExit? || a.GiveBack?)
    ensures OwnedOk(Do(g, c, s, a))
  {
    var s' := Do(g, c, s, a);
    var k := a.thread;
    assert HolderOk(s, k);
    HeldAfter(s.threads, k, s'.threads[k]);
    forall i | 0 <= i < |s'.threads| && Holds(s'.threads[i]) ensures HolderOk(s', i) {
      assert HolderOk(s, i);
    }
  }

  lemma {:induction false} HeldSame(a: seq<Thread>, b: seq<Thread>)
    requires |a| == |b| && forall i :: 0 <= i < |a| ==> a[i].local == b[i].local
    ensures HeldCount(a) == HeldCount(b)
  {
    if a != [] {
      HeldSame(a[..|a| - 1], b[..|b| - 1]);
    }
  }

  // Actions that leave registration alone
  lemma OwnedSame<T(!new)>(s: State<T>, s': State<T>)
    requires OwnedOk(s)
    requires |s'.trackers| == |s.trackers| && s'.finished == s.finished && s'.capacity == s.capacity
    requires |s'.threads| == |s.threads|
    requires forall i :: 0 <= i < |s.threads| ==> s'.threads[i].local == s.threads[i].local
    requires |s'.postponed| <= s.capacity
    ensures OwnedOk(s')
  {
    HeldSame(s.threads, s'.threads);
    forall i | 0 <= i < |s'.threads| && Holds(s'.threads[i]) ensures HolderOk(s', i) {
      assert HolderOk(s, i);
    }
  }

  lemma SpawnOwned<T(!new)>(g: Group<T>, c: Costs<T>, s: State<T>)
    requires OwnedOk(s)
    ensures OwnedOk(Do(g, c, s, Spawn))
  {
    var s' := Do(g, c, s, Spawn);
    HeldAppended(s.threads, Thread(Unset, Idle));
    forall i | 0 <= i < |s'.threads| && Holds(s'.threads[i]) ensures HolderOk(s', i) {
      assert HolderOk(s, i);
    }
  }

  // What an accounting or draining action leaves alone
  ghost predicate SameOwners<T>(s: State<T>, s': State<T>) {
    && |s'.trackers| == |s.trackers| && s'.finished == s.finished && s'.capacity == s.capacity
    && |s'.threads| == |s.threads| && (forall i :: 0 <= i < |s.threads| ==> s'.threads[i].local == s.threads[i].local)
    && (|s.postponed| <= s.capacity ==> |s'.postponed| <= s.capacity)
  }

  lemma AccountingKeepsOwners<T(!new)>(g: Group<T>, c: Costs<T>, s: State<T>, a: Action)
    requires Enabled(s, a) && !(a.Spawn? || a.Register? || a.BeginExit? || a.GiveBack?)
    ensures SameOwners(s, Do(g, c, s, a))
  {
  }

  lemma StepOwned<T(!new)>(g: Group<T>, c: Costs<T>, s: State<T>, a: Action)
    requires OwnedOk(s) && Enabled(s, a)
    ensures OwnedOk(Do(g, c, s, a))
  {
    if a.Spawn? {
      SpawnOwned(g, c, s);
    } else if a.Register? {
      RegisterOwned(g, c, s, a.thread);
    } else if a.BeginExit? || a.GiveBack? {
      ExitOwned(g, c, s, a);
    } else {
      AccountingKeepsOwners(g, c, s, a);
      OwnedSame(s, Do(g, c, s, a));
    }
  }

  // ----- whole runs

  ghost predicate Valid<T(!new)>(g: Group<T>, c: Costs<T>, s: State<T>) {
    Conserved(g, c, s) && HandOk(g, s) && TotalsOk(g, s) && OwnedOk(s)
  }

  ghost predicate Runs<T>(g: Group<T>, c: Costs<T>, s: State<T>, acts: seq<Action>)
    decreases |acts|
  {
    acts == [] || (Enabled(s, acts[0]) && Runs(g, c, Do(g, c, s, acts[0]), acts[1..]))
  }

  ghost function After<T>(g: Group<T>, c: Costs<T>, s: State<T>, acts: seq<Action>): (r: State<T>)
    requires Runs(g, c, s, acts)
    decreases |acts|
  {
    if acts == [] then s else After(g, c, Do(g, c, s, acts[0]), acts[1..])
  }

  lemma StartIsValid<T(!new)>(g: Group<T>, c: Costs<T>, capacity: nat)
    requires Lawful(g)
    ensures Valid(g, c, Start(g, capacity))
  {
    var s := Start(g, capacity);
    FreshTotal(g);
    forall t ensures ConservedAt(g, c, s, t) {
      SumZeros(g, Parts(g, c, s, t));
    }
  }

  // Every reachable state is valid
  lemma {:induction false} RunIsValid<T(!new)>(g: Group<T>, c: Costs<T>, s: State<T>, acts: seq<Action>)
    requires Lawful(g) && Valid(g, c, s) && Runs(g, c, s, acts)
    ensures Valid(g, c, After(g, c, s, acts))
    decreases |acts|
  {
    if acts != [] {
      StepConserves(g, c, s, acts[0]);
      StepTotals(g, c, s, acts[0]);
      StepOwned(g, c, s, acts[0]);
      RunIsValid(g, c, Do(g, c, s, acts[0]), acts[1..]);
    }
  }

  // ----- the ledger is the history

  // The operations that an action submits
  function Submits(a: Action): (r: seq<Op>) {
    match a
    case External(_, op) => [op]
    case ExternalRealloc(_, prev, info) => [Free(prev), Alloc(info)]
    case InnerTrack(_, op) => [op]
    case InnerRealloc(_, prev, info) => [Free(prev), Alloc(info)]
    case Postpone(_, op) => [op]
    case _ => []
  }

  function History(acts: seq<Action>): (r: seq<Op>) {
    if acts == [] then [] else Submits(acts[0]) + History(acts[1..])
  }

  lemma OpsJoin<T(!new)>(g: Group<T>, c: Costs<T>, a: seq<Op>, b: seq<Op>, t: nat)
    requires Lawful(g)
    ensures Sum(g, OpTerms(g, c, a + b, t)) == g.add(Sum(g, OpTerms(g, c, a, t)), Sum(g, OpTerms(g, c, b, t)))
  {
    assert OpTerms(g, c, a + b, t) == OpTerms(g, c, a, t) + OpTerms(g, c, b, t);
    SumConcat(g, OpTerms(g, c, a, t), OpTerms(g, c, b, t));
  }

  lemma LedgerStep<T(!new)>(g: Group<T>, c: Costs<T>, s: State<T>, a: Action, t: nat)
    requires Lawful(g) && Enabled(s, a)
    ensures Get(g, Do(g, c, s, a).ledger.summaries, t)
      == g.add(Get(g, s.ledger.summaries, t), Sum(g, OpTerms(g, c, Submits(a), t)))
  {
    var x := Get(g, s.ledger.summaries, t);
    Zero(g, x);
    var ops := Submits(a);
    if |ops| == 1 {
      TrackAdds(g, c, s.ledger, ops[0], t);
      OpAppended(g, c, [], ops[0], t);
      assert [] + [ops[0]] == ops;
      Zero(g, OpTerm(g, c, ops[0], t));
    } else if |ops| == 2 {
      TrackAdds(g, c, s.ledger, ops[0], t);
      TrackAdds(g, c, Track(g, c, s.ledger, ops[0]), ops[1], t);
      OpAppended(g, c, [], ops[0], t);
      OpAppended(g, c, [ops[0]], ops[1], t);
      assert [] + [ops[0]] == [ops[0]] && [ops[0]] + [ops[1]] == ops;
      Zero(g, OpTerm(g, c, ops[0], t));
      Assoc(g, x, OpTerm(g, c, ops[0], t), OpTerm(g, c, ops[1], t));
    }
  }

  lemma {:induction false} LedgerIsHistory<T(!new)>(g: Group<T>, c: Costs<T>, s: State<T>, acts: seq<Action>, t: nat)
    requires Lawful(g) && Runs(g, c, s, acts)
    ensures Get(g, After(g, c, s, acts).ledger.summaries, t)
      == g.add(Get(g, s.ledger.summaries, t), Sum(g, OpTerms(g, c, History(acts), t)))
    decreases |acts|
  {
    var x := Get(g, s.ledger.summaries, t);
    if acts == [] {
      Zero(g, x);
    } else {
      var a, rest := acts[0], acts[1..];
      LedgerStep(g, c, s, a, t);
      LedgerIsHistory(g, c, Do(g, c, s, a), rest, t);
      OpsJoin(g, c, Submits(a), History(rest), t);
      Assoc(g, x, Sum(g, OpTerms(g, c, Submits(a), t)), Sum(g, OpTerms(g, c, History(rest), t)));
    }
  }

  // Under every interleaving, for every trace, the places together hold exactly what was submitted
  lemma NothingIsLost<T(!new)>(g: Group<T>, c: Costs<T>, capacity: nat, acts: seq<Action>, t: nat)
    requires Lawful(g) && Runs(g, c, Start(g, capacity), acts)
    ensures Sum(g, Parts(g, c, After(g, c, Start(g, capacity), acts), t)) == Sum(g, OpTerms(g, c, History(acts), t))
  {
    var s := Start(g, capacity);
    StartIsValid(g, c, capacity);
    RunIsValid(g, c, s, acts);
    assert ConservedAt(g, c, After(g, c, s, acts), t);
    LedgerIsHistory(g, c, s, acts, t);
    Zero(g, Sum(g, OpTerms(g, c, History(acts), t)));
  }

  // Once everything has been drained, the written tally is the history without what was skipped
  ghost predicate Drained<T>(s: State<T>) {
    && (forall i :: 0 <= i < |s.trackers| ==> s.trackers[i].summaries == map[])
    && s.exiting.summaries == map[] && s.inner.summaries == map[] && s.worker.hand.summaries == map[]
    && s.postponed == []
    && (forall i :: 0 <= i < |s.threads| ==> !s.threads[i].inner.Delayed?)
  }

  // Nothing is under way: what was submitted has been written or skipped
  lemma DrainedParts<T(!new)>(g: Group<T>, c: Costs<T>, s: State<T>, t: nat)
    requires Lawful(g) && Drained(s)
    ensures Sum(g, Parts(g, c, s, t)) == g.add(Get(g, s.written.summaries, t), Sum(g, OpTerms(g, c, s.skipped, t)))
  {
    var p := Parts(g, c, s, t);
    SumZeros(g, TrackerTerms(g, s.trackers, t));
    SumZeros(g, ThreadTerms(g, c, s.threads, t));
    assert p == p[..6] + [p[6]] + [p[7]];
    SumZeros(g, p[..6]);
    SumPush(g, p[..6], p[6]);
    SumPush(g, p[..6] + [p[6]], p[7]);
    Zero(g, p[6]);
  }

  lemma DrainedIsWritten<T(!new)>(g: Group<T>, c: Costs<T>, capacity: nat, acts: seq<Action>, t: nat)
    requires Lawful(g) && Runs(g, c, Start(g, capacity), acts)
    requires Drained(After(g, c, Start(g, capacity), acts))
    ensures var s := After(g, c, Start(g, capacity), acts);
      g.add(Get(g, s.written.summaries, t), Sum(g, OpTerms(g, c, s.skipped, t)))
      == Sum(g, OpTerms(g, c, History(acts), t))
  {
    var s := After(g, c, Start(g, capacity), acts);
    NothingIsLost(g, c, capacity, acts, t);
    DrainedParts(g, c, s, t);
  }

  // ----- trackers are reused

  ghost function MaxHeld<T>(g: Group<T>, c: Costs<T>, s: State<T>, acts: seq<Action>): (r: nat)
    requires Runs(g, c, s, acts)
    decreases |acts|
  {
    var now := HeldCount(s.threads);
    if acts == [] then now
    else
      var later := MaxHeld(g, c, Do(g, c, s, acts[0]), acts[1..]);
      if now < later then later else now
  }

  // A tracker is created only when all existing ones are held
  lemma TrackerStep<T(!new)>(g: Group<T>, c: Costs<T>, s: State<T>, a: Action)
    requires OwnedOk(s) && Enabled(s, a)
    ensures var s' := Do(g, c, s, a);
      || |s'.trackers| == |s.trackers|
      || (&& |s'.trackers| == |s.trackers| + 1
          && HeldCount(s.threads) == |s.trackers| && HeldCount(s'.threads) == |s'.trackers|)
  {
    if a.Register? {
      HeldAfter(s.threads, a.thread, Do(g, c, s, a).threads[a.thread]);
    } else if !(a.Spawn? || a.BeginExit? || a.GiveBack?) {
      AccountingKeepsOwners(g, c, s, a);
    }
  }

  lemma {:induction false} TrackersArePeak<T(!new)>(g: Group<T>, c: Costs<T>, s: State<T>, acts: seq<Action>)
    requires OwnedOk(s) && Runs(g, c, s, acts)
    ensures var n := |After(g, c, s, acts).trackers|;
      n == if MaxHeld(g, c, s, acts) < |s.trackers| then |s.trackers| else MaxHeld(g, c, s, acts)
    decreases |acts|
  {
    if acts != [] {
      var a := acts[0];
      StepOwned(g, c, s, a);
      TrackersArePeak(g, c, Do(g, c, s, a), acts[1..]);
      TrackerStep(g, c, s, a);
    }
  }

  // The number of trackers ever created is the peak number of threads that held one at the same time
  lemma TrackersCreated<T(!new)>(g: Group<T>, c: Costs<T>, capacity: nat, acts: seq<Action>)
    requires Runs(g, c, Start(g, capacity), acts)
    ensures |After(g, c, Start(g, capacity), acts).trackers| == MaxHeld(g, c, Start(g, capacity), acts)
  {
    TrackersArePeak(g, c, Start(g, capacity), acts);
  }

  // The tracker given back last is handed out first, with what is left in it
  lemma LastGivenBackIsReused<T(!new)>(g: Group<T>, c: Costs<T>, s: State<T>, k: nat, j: nat)
    requires Enabled(s, GiveBack(k)) && Enabled(Do(g, c, s, GiveBack(k)), Register(j))
    ensures var after := Do(g, c, Do(g, c, s, GiveBack(k)), Register(j));
      && after.threads[j].local == Own(s.threads[k].local.id)
      && after.finished == s.finished && after.trackers == s.trackers
  {
    var given := Do(g, c, s, GiveBack(k));
    assert given.finished[..|s.finished|] == s.finished;
  }

  // A registered thread can always account: its tracker exists and nobody else holds it
  lemma OwnTrackerIsExclusive<T(!new)>(g: Group<T>, c: Costs<T>, capacity: nat, acts: seq<Action>, i: nat)
    requires Lawful(g) && Runs(g, c, Start(g, capacity), acts)
    requires i < |After(g, c, Start(g, capacity), acts).threads|
    requires After(g, c, Start(g, capacity), acts).threads[i].local.Own?
    ensures var s := After(g, c, Start(g, capacity), acts);
      && OwnsTracker(s.threads[i], |s.trackers|)
      && s.threads[i].local.id !in s.finished
      && forall j :: 0 <= j < |s.threads| && j != i && Holds(s.threads[j]) ==>
           s.threads[j].local.id != s.threads[i].local.id
  {
    StartIsValid(g, c, capacity);
    RunIsValid(g, c, Start(g, capacity), acts);
    assert HolderOk(After(g, c, Start(g, capacity), acts), i);
  }
}
