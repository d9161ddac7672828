/**
 The trackers over whole runs: at every moment a tracker holds the operations
 recorded in it since the worker last visited it, and a round of the worker
 during which nobody else acts leaves all of them empty.
 */
module Places {
  import opened Groups
  import opened Tallies
  import opened Accounting
  import opened AccountingRuns
  import opened EndToEnd

  datatype Place = OfThread(id: nat) | OfProfiler | OfExiting

  ghost function TallyAt<T>(s: State<T>, p: Place): (r: map<nat, T>) {
    match p
    case OfThread(id) => if id < |s.trackers| then s.trackers[id].summaries else map[]
    case OfProfiler => s.inner.summaries
    case OfExiting => s.exiting.summaries
  }

  // Where the operations of a thread go
  function Home(th: Thread): (r: Place) {
    if th.local.Own? then OfThread(th.local.id) else OfExiting
  }

  // The worker's order
  function Turn(n: nat, k: nat): (r: Place) {
    if k < n then OfThread(k) else if k == n then OfProfiler else OfExiting
  }

  // The operations that an action records at a place
  ghost function Records<T>(s: State<T>, a: Action, p: Place): (r: seq<Op>)
    requires Enabled(s, a)
  {
    match a
    case External(k, op) => if p == Home(s.threads[k]) then [op] else []
    case ExternalRealloc(k, prev, info) => if p == Home(s.threads[k]) then [Free(prev), Alloc(info)] else []
    case InnerApply(k) => if p == OfProfiler then [s.threads[k].inner.op] else []
    case InnerTrack(_, op) => if p == OfProfiler then [op] else []
    case InnerRealloc(_, prev, info) => if p == OfProfiler then [Free(prev), Alloc(info)] else []
    case _ => []
  }

  // What has been recorded at a place since the worker was there
  ghost function Recorded<T>(g: Group<T>, c: Costs<T>, s: State<T>, acts: seq<Action>, p: Place, ops: seq<Op>)
    : (r: seq<Op>)
    requires Runs(g, c, s, acts)
    decreases |acts|
  {
    if acts == [] then ops
    else
      var a := acts[0];
      var now := if a.DrainConsume? && p == Turn(|s.trackers|, s.worker.visit.next) then [] else ops + Records(s, a, p);
      Recorded(g, c, Do(g, c, s, a), acts[1..], p, now)
  }

  ghost predicate HoldsOps<T>(g: Group<T>, c: Costs<T>, m: map<nat, T>, ops: seq<Op>) {
    forall t :: Get(g, m, t) == Sum(g, OpTerms(g, c, ops, t))
  }

  lemma HoldsOne<T(!new)>(g: Group<T>, c: Costs<T>, tr: Tracker<T>, ops: seq<Op>, op: Op)
    requires Lawful(g) && HoldsOps(g, c, tr.summaries, ops)
    ensures HoldsOps(g, c, Track(g, c, tr, op).summaries, ops + [op])
  {
    forall t ensures Get(g, Track(g, c, tr, op).summaries, t) == Sum(g, OpTerms(g, c, ops + [op], t)) {
      TrackAdds(g, c, tr, op, t);
      OpAppended(g, c, ops, op, t);
    }
  }

  lemma HoldsTwo<T(!new)>(g: Group<T>, c: Costs<T>, tr: Tracker<T>, ops: seq<Op>, x: Op, y: Op)
    requires Lawful(g) && HoldsOps(g, c, tr.summaries, ops)
    ensures HoldsOps(g, c, Track(g, c, Track(g, c, tr, x), y).summaries, ops + [x, y])
  {
    HoldsOne(g, c, tr, ops, x);
    HoldsOne(g, c, Track(g, c, tr, x), ops + [x], y);
    assert ops + [x] + [y] == ops + [x, y];
  }

  lemma ExternalRecords<T(!new)>(g: Group<T>, c: Costs<T>, s: State<T>, a: Action, p: Place, ops: seq<Op>)
    requires Lawful(g) && Enabled(s, a) && (a.External? || a.ExternalRealloc?)
    requires HoldsOps(g, c, TallyAt(s, p), ops)
    ensures HoldsOps(g, c, TallyAt(Do(g, c, s, a), p), ops + Records(s, a, p))
  {
    if p == Home(s.threads[a.thread]) {
      var tr := if p.OfThread? then s.trackers[p.id] else s.exiting;
      if a.External? {
        HoldsOne(g, c, tr, ops, a.op);
      } else {
        HoldsTwo(g, c, tr, ops, Free(a.prev), Alloc(a.info));
      }
    } else {
      assert ops + [] == ops;
    }
  }

  lemma InnerRecords<T(!new)>(g: Group<T>, c: Costs<T>, s: State<T>, a: Action, p: Place, ops: seq<Op>)
    requires Lawful(g) && Enabled(s, a) && (a.InnerApply? || a.InnerTrack? || a.InnerRealloc?)
    requires HoldsOps(g, c, TallyAt(s, p), ops)
    ensures HoldsOps(g, c, TallyAt(Do(g, c, s, a), p), ops + Records(s, a, p))
  {
    if p == OfProfiler {
      if a.InnerRealloc? {
        HoldsTwo(g, c, s.inner, ops, Free(a.prev), Alloc(a.info));
      } else {
        HoldsOne(g, c, s.inner, ops, if a.InnerApply? then s.threads[a.thread].inner.op else a.op);
      }
    } else {
      assert ops + [] == ops;
    }
  }

  lemma ConsumeClears<T(!new)>(g: Group<T>, c: Costs<T>, s: State<T>, p: Place)
    requires Enabled(s, DrainConsume)
    ensures TallyAt(Do(g, c, s, DrainConsume), p)
      == if p == Turn(|s.trackers|, s.worker.visit.next) then map[] else TallyAt(s, p)
  {
  }

  lemma OthersKeep<T(!new)>(g: Group<T>, c: Costs<T>, s: State<T>, a: Action, p: Place)
    requires Enabled(s, a) && !(a.External? || a.ExternalRealloc? || a.InnerApply? || a.InnerTrack? || a.InnerRealloc?)
    requires !a.DrainConsume?
    ensures TallyAt(Do(g, c, s, a), p) == TallyAt(s, p) && Records(s, a, p) == []
  {
  }

  lemma StepRecords<T(!new)>(g: Group<T>, c: Costs<T>, s: State<T>, a: Action, p: Place, ops: seq<Op>, now: seq<Op>)
    requires Lawful(g) && Enabled(s, a) && HoldsOps(g, c, TallyAt(s, p), ops)
    requires now == if a.DrainConsume? && p == Turn(|s.trackers|, s.worker.visit.next) then []
                    else ops + Records(s, a, p)
    ensures HoldsOps(g, c, TallyAt(Do(g, c, s, a), p), now)
  {
    if a.External? || a.ExternalRealloc? {
      ExternalRecords(g, c, s, a, p, ops);
    } else if a.InnerApply? || a.InnerTrack? || a.InnerRealloc? {
      InnerRecords(g, c, s, a, p, ops);
    } else if a.DrainConsume? {
      ConsumeClears(g, c, s, p);
      assert ops + [] == ops;
    } else {
      OthersKeep(g, c, s, a, p);
      assert ops + [] == ops;
    }
  }

  lemma {:induction false} PlaceHolds<T(!new)>(g: Group<T>, c: Costs<T>, s: State<T>, acts: seq<Action>, p: Place,
                                               ops: seq<Op>)
    requires Lawful(g) && Runs(g, c, s, acts) && HoldsOps(g, c, TallyAt(s, p), ops)
    ensures HoldsOps(g, c, TallyAt(After(g, c, s, acts), p), Recorded(g, c, s, acts, p, ops))
    decreases |acts|
  {
    if acts != [] {
      var a := acts[0];
      var now := if a.DrainConsume? && p == Turn(|s.trackers|, s.worker.visit.next) then [] else ops + Records(s, a, p);
      StepRecords(g, c, s, a, p, ops, now);
      PlaceHolds(g, c, Do(g, c, s, a), acts[1..], p, now);
    }
  }

  // In every run each tracker holds what was recorded in it since the worker was there, and nothing else
  lemma TrackerHolds<T(!new)>(g: Group<T>, c: Costs<T>, capacity: nat, acts: seq<Action>, p: Place)
    requires Lawful(g) && Runs(g, c, Start(g, capacity), acts)
    ensures HoldsOps(g, c, TallyAt(After(g, c, Start(g, capacity), acts), p),
                     Recorded(g, c, Start(g, capacity), acts, p, []))
  {
    PlaceHolds(g, c, Start(g, capacity), acts, p, []);
  }

  // ----- a round of the worker alone

  // What is left of a round when the worker is at its k-th visit
  function RestOfRound(n: nat, k: nat): (r: seq<Action>)
    requires k <= n + 2
    decreases n + 2 - k
  {
    if k == n + 2 then [DrainEnd] else [DrainConsume, DrainAccount] + RestOfRound(n, k + 1)
  }

  // The first k places of the worker's order are empty
  ghost predicate Cleared<T>(s: State<T>, k: nat) {
    forall j {:trigger Turn(|s.trackers|, j)} :: 0 <= j < k ==> TallyAt(s, Turn(|s.trackers|, j)) == map[]
  }

  // Everything but the trackers and the worker is as before
  ghost predicate Aside<T>(s: State<T>, s': State<T>) {
    |s'.trackers| == |s.trackers| && s'.postponed == s.postponed && s'.threads == s.threads
  }

  lemma VisitStep<T(!new)>(g: Group<T>, c: Costs<T>, s: State<T>, k: nat) returns (s': State<T>)
    requires s.worker == Worker(Visiting(k), Fresh(g)) && k < |s.trackers| + 2 && Cleared(s, k)
    ensures Enabled(s, DrainConsume) && Enabled(Do(g, c, s, DrainConsume), DrainAccount)
    ensures s' == Do(g, c, Do(g, c, s, DrainConsume), DrainAccount)
    ensures s'.worker == Worker(Visiting(k + 1), Fresh(g)) && Cleared(s', k + 1) && Aside(s, s')
  {
    var held := Do(g, c, s, DrainConsume);
    s' := Do(g, c, held, DrainAccount);
    forall j {:trigger Turn(|s'.trackers|, j)} | 0 <= j < k + 1 ensures TallyAt(s', Turn(|s'.trackers|, j)) == map[] {
      var p := Turn(|s.trackers|, j);
      ConsumeClears(g, c, s, p);
      assert TallyAt(s', p) == TallyAt(held, p);
    }
  }

  lemma TwoSteps<T(!new)>(g: Group<T>, c: Costs<T>, s: State<T>, a: Action, b: Action, rest: seq<Action>)
    requires Enabled(s, a) && Enabled(Do(g, c, s, a), b) && Runs(g, c, Do(g, c, Do(g, c, s, a), b), rest)
    ensures Runs(g, c, s, [a, b] + rest)
    ensures After(g, c, s, [a, b] + rest) == After(g, c, Do(g, c, Do(g, c, s, a), b), rest)
  {
    var acts := [a, b] + rest;
    assert acts[1..][1..] == rest;
  }

  lemma {:induction false} RoundClears<T(!new)>(g: Group<T>, c: Costs<T>, s: State<T>, k: nat)
    requires s.worker == Worker(Visiting(k), Fresh(g)) && k <= |s.trackers| + 2 && Cleared(s, k)
    ensures Runs(g, c, s, RestOfRound(|s.trackers|, k))
    ensures var end := After(g, c, s, RestOfRound(|s.trackers|, k));
      Cleared(end, |s.trackers| + 2) && end.worker == Worker(Resting, Fresh(g)) && Aside(s, end)
    decreases |s.trackers| + 2 - k
  {
    if k < |s.trackers| + 2 {
      var s' := VisitStep(g, c, s, k);
      RoundClears(g, c, s', k + 1);
      TwoSteps(g, c, s, DrainConsume, DrainAccount, RestOfRound(|s.trackers|, k + 1));
    } else {
      assert [DrainEnd][1..] == [];
    }
  }

  lemma AllCleared<T(!new)>(g: Group<T>, s: State<T>)
    requires Cleared(s, |s.trackers| + 2) && s.worker.hand == Fresh(g)
    requires s.postponed == [] && forall i :: 0 <= i < |s.threads| ==> !s.threads[i].inner.Delayed?
    ensures Drained(s)
  {
    forall i | 0 <= i < |s.trackers| ensures s.trackers[i].summaries == map[] {
      assert Turn(|s.trackers|, i) == OfThread(i);
    }
    assert Turn(|s.trackers|, |s.trackers|) == OfProfiler && Turn(|s.trackers|, |s.trackers| + 1) == OfExiting;
  }

  function Round(n: nat): (r: seq<Action>) {
    [DrainBegin] + RestOfRound(n, 0)
  }

  // If nothing is postponed or about to be applied, one round of the worker drains everything
  lemma RoundDrains<T(!new)>(g: Group<T>, c: Costs<T>, s: State<T>)
    requires s.worker == Worker(Resting, Fresh(g)) && s.postponed == []
    requires forall i :: 0 <= i < |s.threads| ==> !s.threads[i].inner.Delayed?
    ensures Runs(g, c, s, Round(|s.trackers|)) && Drained(After(g, c, s, Round(|s.trackers|)))
  {
    var begun := Do(g, c, s, DrainBegin);
    var rest := RestOfRound(|s.trackers|, 0);
    assert Round(|s.trackers|)[1..] == rest;
    RoundClears(g, c, begun, 0);
    AllCleared(g, After(g, c, begun, rest));
  }

  lemma FirstStep<T(!new)>(g: Group<T>, c: Costs<T>, s: State<T>, a: Action, rest: seq<Action>, next: State<T>)
    requires Enabled(s, a) && next == Do(g, c, s, a) && Runs(g, c, next, rest)
    ensures Runs(g, c, s, [a] + rest) && After(g, c, s, [a] + rest) == After(g, c, next, rest)
  {
    assert ([a] + rest)[1..] == rest;
  }

  lemma {:induction false} RunsJoin<T(!new)>(g: Group<T>, c: Costs<T>, s: State<T>, a: seq<Action>, b: seq<Action>,
                                             middle: State<T>)
    requires Runs(g, c, s, a) && middle == After(g, c, s, a) && Runs(g, c, middle, b)
    ensures Runs(g, c, s, a + b) && After(g, c, s, a + b) == After(g, c, middle, b)
    decreases |a|
  {
    if a == [] {
      assert a + b == b;
    } else {
      var next := Do(g, c, s, a[0]);
      RunsJoin(g, c, next, a[1..], b, middle);
      FirstStep(g, c, s, a[0], a[1..] + b, next);
      assert a + b == [a[0]] + (a[1..] + b);
    }
  }

  lemma {:induction false} HistoryJoins(a: seq<Action>, b: seq<Action>)
    ensures History(a + b) == History(a) + History(b)
  {
    if a == [] {
      assert a + b == b;
    } else {
      HistoryJoins(a[1..], b);
      assert (a + b)[1..] == a[1..] + b;
    }
  }

  lemma {:induction false} RoundSubmitsNothing(n: nat, k: nat)
    requires k <= n + 2
    ensures History(RestOfRound(n, k)) == [] && Rested(RestOfRound(n, k)) && RestOfRound(n, k) != []
    decreases n + 2 - k
  {
    if k < n + 2 {
      var rest := RestOfRound(n, k + 1);
      RoundSubmitsNothing(n, k + 1);
      var acts := RestOfRound(n, k);
      assert acts[1..][1..] == rest && acts[|acts| - 1] == rest[|rest| - 1];
    }
  }

  // Nothing is postponed or about to be applied, and the worker rests
  ghost predicate Idle<T>(s: State<T>) {
    && s.worker.visit.Resting? && s.postponed == []
    && forall i :: 0 <= i < |s.threads| ==> !s.threads[i].inner.Delayed?
  }

  lemma RoundAfter(acts: seq<Action>, n: nat)
    ensures History(acts + Round(n)) == History(acts) && Rested(acts + Round(n))
  {
    var round, all := Round(n), acts + Round(n);
    RoundSubmitsNothing(n, 0);
    HistoryJoins(acts, round);
    assert round[1..] == RestOfRound(n, 0);
    assert all[|all| - 1] == round[|round| - 1] == round[1..][|round| - 2];
  }

  // Every run after which nothing is postponed or about to be applied is completed by one round: then everything
  // is drained, and no operation was added
  lemma RoundCompletes<T(!new)>(g: Group<T>, c: Costs<T>, capacity: nat, acts: seq<Action>)
    requires Lawful(g) && Runs(g, c, Start(g, capacity), acts) && Idle(After(g, c, Start(g, capacity), acts))
    ensures var all := acts + Round(|After(g, c, Start(g, capacity), acts).trackers|);
      && Runs(g, c, Start(g, capacity), all) && Drained(After(g, c, Start(g, capacity), all))
      && Rested(all) && History(all) == History(acts)
  {
    var s := After(g, c, Start(g, capacity), acts);
    assert HandOk(g, s) by {
      StartIsValid(g, c, capacity);
      RunIsValid(g, c, Start(g, capacity), acts);
    }
    RoundDrains(g, c, s);
    RunsJoin(g, c, Start(g, capacity), acts, Round(|s.trackers|), s);
    RoundAfter(acts, |s.trackers|);
  }
}
