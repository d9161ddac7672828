/**
 What giving trackers back through guards means for the threads. As long as
 finalizers run on their own threads, a guarded run is a run of the accounting
 state machine. A drain gives back the tracker of a thread that may still use
 it: exclusive use is lost exactly then, but no accounted amount is.
 */
module ReclaimTheorems {
  import opened Groups
  import opened Reclaim
  import A = Accounting
  import R = AccountingRuns
  import G = Guards

  // ----- which tracker a thread uses

  // The thread has a registration with this tracker
  ghost predicate Has(entries: seq<Entry>, k: nat, x: nat) {
    exists r: nat :: r < |entries| && entries[r] == Entry(k, x)
  }

  // A thread has at most one registration. A live one's thread uses its tracker or is about to give it back.
  ghost predicate EntriesOk(threads: seq<A.Thread>, entries: seq<Entry>, given: seq<nat>) {
    && (forall r: nat :: r < |entries| ==> entries[r].thread < |threads| && !threads[entries[r].thread].local.Unset?)
    && (forall r: nat, q: nat :: r < |entries| && q < |entries| && r != q ==> entries[r].thread != entries[q].thread)
    && (forall r: nat :: Live(entries, given, r) ==>
          threads[entries[r].thread].local in {A.Own(entries[r].tracker), A.Returning(entries[r].tracker)})
  }

  ghost predicate ThreadOk(threads: seq<A.Thread>, entries: seq<Entry>, given: seq<nat>, k: nat)
    requires k < |threads|
  {
    && (threads[k].local.Own? ==> Has(entries, k, threads[k].local.id))
    && (threads[k].local.Returning? ==>
          exists r: nat :: Live(entries, given, r) && entries[r] == Entry(k, threads[k].local.id))
  }

  ghost predicate Placed(threads: seq<A.Thread>, entries: seq<Entry>, given: seq<nat>) {
    && EntriesOk(threads, entries, given)
    && forall k {:trigger ThreadOk(threads, entries, given, k)} :: 0 <= k < |threads| ==>
         ThreadOk(threads, entries, given, k)
  }

  lemma PlacedSame(threads: seq<A.Thread>, after: seq<A.Thread>, entries: seq<Entry>, given: seq<nat>)
    requires Placed(threads, entries, given) && |threads| <= |after|
    requires forall k :: 0 <= k < |threads| ==> after[k].local == threads[k].local
    requires forall k :: |threads| <= k < |after| ==> after[k].local.Unset?
    ensures Placed(after, entries, given)
  {
    forall k | 0 <= k < |after| ensures ThreadOk(after, entries, given, k) {
      if k < |threads| {
        assert ThreadOk(threads, entries, given, k);
      }
    }
  }

  lemma PlacedRegister(threads: seq<A.Thread>, after: seq<A.Thread>, entries: seq<Entry>, given: seq<nat>, k: nat,
                       x: nat)
    requires Placed(threads, entries, given) && k < |threads| == |after| && threads[k].local.Unset?
    requires after[k].local == A.Own(x)
    requires forall l :: 0 <= l < |threads| && l != k ==> after[l].local == threads[l].local
    requires forall r :: r in given ==> r < |entries|
    ensures Placed(after, entries + [Entry(k, x)], given)
  {
    var more := entries + [Entry(k, x)];
    assert forall r: nat :: Live(more, given, r) ==> Live(entries, given, r) || r == |entries|;
    forall l | 0 <= l < |after| ensures ThreadOk(after, more, given, l) {
      assert ThreadOk(threads, entries, given, l);
      if l == k {
        assert more[|entries|] == Entry(k, x);
      } else if threads[l].local.Own? {
        var r: nat :| r < |entries| && entries[r] == Entry(l, threads[l].local.id);
        assert more[r] == entries[r];
      } else if threads[l].local.Returning? {
        var r: nat :| Live(entries, given, r) && entries[r] == Entry(l, threads[l].local.id);
        assert Live(more, given, r) && more[r] == entries[r];
      }
    }
  }

  // A thread that runs a finalizer switches to the tracker for exiting threads
  lemma PlacedLeave<T(!new)>(j: Joint<T>, k: nat)
    requires Placed(j.acc.threads, j.entries, j.given) && k < |j.acc.threads|
    ensures Placed(Leave(j, k).threads, j.entries, j.given)
  {
    var threads, after := j.acc.threads, Leave(j, k).threads;
    assert ThreadOk(threads, j.entries, j.given, k);
    forall r: nat | Live(j.entries, j.given, r)
      ensures after[j.entries[r].thread].local in {A.Own(j.entries[r].tracker), A.Returning(j.entries[r].tracker)}
    {
      assert j.entries[r].thread == k ==> !Reclaimed(j, k);
    }
    forall l | 0 <= l < |after| ensures ThreadOk(after, j.entries, j.given, l) {
      assert ThreadOk(threads, j.entries, j.given, l);
      if l == k && threads[k].local.Own? && !Reclaimed(j, k) {
        var r: nat :| r < |j.entries| && j.entries[r] == Entry(k, threads[k].local.id);
        assert Live(j.entries, j.given, r);
      }
    }
  }

  lemma PlacedPush<T(!new)>(j: Joint<T>, r: nat)
    requires Placed(j.acc.threads, j.entries, j.given) && Live(j.entries, j.given, r)
    ensures Placed(Freed(j, r).threads, j.entries, j.given + [r])
  {
    var threads, after, done := j.acc.threads, Freed(j, r).threads, j.given + [r];
    assert forall q: nat :: Live(j.entries, done, q) <==> Live(j.entries, j.given, q) && q != r;
    forall l | 0 <= l < |after| ensures ThreadOk(after, j.entries, done, l) {
      assert ThreadOk(threads, j.entries, j.given, l);
      if after[l].local.Returning? {
        var q: nat :| Live(j.entries, j.given, q) && j.entries[q] == Entry(l, threads[l].local.id);
        assert Live(j.entries, done, q);
      }
    }
  }

  lemma StepPlaced<T(!new)>(g: Group<T>, c: A.Costs<T>, j: Joint<T>, x: Action)
    requires Valid(j) && Placed(j.acc.threads, j.entries, j.given) && Enabled(j, x)
    ensures var j' := Do(g, c, j, x); Placed(j'.acc.threads, j'.entries, j'.given)
  {
    var j' := Do(g, c, j, x);
    RunsInRange(j);
    match x
    case Account(act) =>
      AccountKeeps(g, c, j.acc, act);
      PlacedSame(j.acc.threads, j'.acc.threads, j.entries, j.given);
    case Register(k) =>
      PlacedRegister(j.acc.threads, j'.acc.threads, j.entries, j.given, k, j'.acc.threads[k].local.id);
    case Guard(step, runner) => PlacedLeave(j, runner);
    case Push(i) =>
      assert j.pending[i] in j.pending;
      PlacedPush(j, j.pending[i]);
  }

  lemma {:induction false} RunIsPlaced<T(!new)>(g: Group<T>, c: A.Costs<T>, j: Joint<T>, acts: seq<Action>)
    requires Valid(j) && Placed(j.acc.threads, j.entries, j.given) && Runs(g, c, j, acts)
    ensures var j' := After(g, c, j, acts); Valid(j') && Placed(j'.acc.threads, j'.entries, j'.given)
    decreases |acts|
  {
    if acts != [] {
      StepValid(g, c, j, acts[0]);
      StepPlaced(g, c, j, acts[0]);
      RunIsPlaced(g, c, Do(g, c, j, acts[0]), acts[1..]);
    }
  }

  // ----- exclusive use

  // The tracker that a thread uses is not free, and no other thread holds it
  ghost predicate UsesAlone<T>(s: A.State<T>, k: nat)
    requires k < |s.threads| && s.threads[k].local.Own?
  {
    && s.threads[k].local.id !in s.finished
    && forall l :: 0 <= l < |s.threads| && l != k && R.Holds(s.threads[l]) ==>
         s.threads[l].local.id != s.threads[k].local.id
  }

  ghost predicate Exclusive<T>(s: A.State<T>) {
    forall k :: 0 <= k < |s.threads| && s.threads[k].local.Own? ==> UsesAlone(s, k)
  }

  // No thread still uses a tracker that was given back for it
  ghost predicate LeftInTime<T>(j: Joint<T>) {
    forall r :: r in j.given && r < |j.entries| && j.entries[r].thread < |j.acc.threads| ==>
      !j.acc.threads[j.entries[r].thread].local.Own?
  }

  lemma HolderIsLive<T(!new)>(j: Joint<T>, k: nat) returns (r: nat)
    requires Placed(j.acc.threads, j.entries, j.given) && LeftInTime(j)
    requires k < |j.acc.threads| && R.Holds(j.acc.threads[k])
    ensures Live(j.entries, j.given, r) && j.entries[r] == Entry(k, j.acc.threads[k].local.id)
  {
    assert ThreadOk(j.acc.threads, j.entries, j.given, k);
    if j.acc.threads[k].local.Own? {
      r :| r < |j.entries| && j.entries[r] == Entry(k, j.acc.threads[k].local.id);
    } else {
      r :| Live(j.entries, j.given, r) && j.entries[r] == Entry(k, j.acc.threads[k].local.id);
    }
  }

  // A thread whose tracker was given back for it shares it with the free list or with its next holder
  lemma LateUserShares<T(!new)>(j: Joint<T>, r: nat)
    requires Valid(j) && Placed(j.acc.threads, j.entries, j.given)
    requires r in j.given && r < |j.entries| && j.acc.threads[j.entries[r].thread].local.Own?
    ensures !UsesAlone(j.acc, j.entries[r].thread)
  {
    var k := j.entries[r].thread;
    var x := j.acc.threads[k].local.id;
    assert ThreadOk(j.acc.threads, j.entries, j.given, k);
    var q: nat :| q < |j.entries| && j.entries[q] == Entry(k, x);
    assert q == r;
    if x !in j.acc.finished {
      assert LiveOn(j.entries, j.given, x);
      var l: nat :| Live(j.entries, j.given, l) && j.entries[l].tracker == x;
      assert R.Holds(j.acc.threads[j.entries[l].thread]);
    }
  }

  lemma LeftIsExclusive<T(!new)>(j: Joint<T>, k: nat)
    requires Valid(j) && Placed(j.acc.threads, j.entries, j.given) && LeftInTime(j)
    requires k < |j.acc.threads| && j.acc.threads[k].local.Own?
    ensures UsesAlone(j.acc, k)
  {
    var r := HolderIsLive(j, k);
    forall l | 0 <= l < |j.acc.threads| && l != k && R.Holds(j.acc.threads[l])
      ensures j.acc.threads[l].local.id != j.acc.threads[k].local.id
    {
      var q := HolderIsLive(j, l);
    }
  }

  // Exclusive use holds exactly when no thread still uses a tracker that was given back for it
  lemma ExclusiveState<T(!new)>(j: Joint<T>)
    requires Valid(j) && Placed(j.acc.threads, j.entries, j.given)
    ensures Exclusive(j.acc) <==> LeftInTime(j)
  {
    if LeftInTime(j) {
      forall k | 0 <= k < |j.acc.threads| && j.acc.threads[k].local.Own? ensures UsesAlone(j.acc, k) {
        LeftIsExclusive(j, k);
      }
    } else {
      var r :| r in j.given && r < |j.entries| && j.entries[r].thread < |j.acc.threads|
        && j.acc.threads[j.entries[r].thread].local.Own?;
      LateUserShares(j, r);
    }
  }

  lemma ExclusiveIff<T(!new)>(g: Group<T>, c: A.Costs<T>, capacity: nat, acts: seq<Action>)
    requires Runs(g, c, Start(g, capacity), acts)
    ensures var j := After(g, c, Start(g, capacity), acts); Exclusive(j.acc) <==> LeftInTime(j)
  {
    StartIsValid(g, capacity);
    RunIsPlaced(g, c, Start(g, capacity), acts);
    ExclusiveState(After(g, c, Start(g, capacity), acts));
  }

  // ----- exclusive use over whole runs

  // The registration whose finalizer a step runs on a thread other than its own: only a drain does that
  ghost function Foreign<T>(j: Joint<T>, x: Action): (r: set<nat>)
    requires Enabled(j, x)
  {
    if x.Guard? && x.step.Next? && Fires(j.guards, x.step) then
      var runs := G.Do(j.guards, x.step).runs;
      var r := runs[|runs| - 1];
      if r < |j.entries| && j.entries[r].thread != x.runner then {r} else {}
    else {}
  }

  // The step gives back the tracker of a registration in `foreign` while its thread still uses the tracker
  ghost predicate Takes<T>(j: Joint<T>, x: Action, foreign: set<nat>)
    requires Enabled(j, x)
  {
    && x.Push? && j.pending[x.index] in foreign && j.pending[x.index] < |j.entries|
    && var k := j.entries[j.pending[x.index]].thread; k < |j.acc.threads| && j.acc.threads[k].local.Own?
  }

  ghost predicate NeverTakes<T>(g: Group<T>, c: A.Costs<T>, j: Joint<T>, acts: seq<Action>, foreign: set<nat>)
    requires Runs(g, c, j, acts)
    decreases |acts|
  {
    acts == [] ||
    (!Takes(j, acts[0], foreign)
     && NeverTakes(g, c, Do(g, c, j, acts[0]), acts[1..], foreign + Foreign(j, acts[0])))
  }

  ghost predicate AlwaysExclusive<T>(g: Group<T>, c: A.Costs<T>, j: Joint<T>, acts: seq<Action>)
    requires Runs(g, c, j, acts)
    decreases |acts|
  {
    Exclusive(j.acc) && (acts == [] || AlwaysExclusive(g, c, Do(g, c, j, acts[0]), acts[1..]))
  }

  // A thread whose finalizer has run is past its tracker, unless another thread ran it
  ghost predicate PastUnless<T>(j: Joint<T>, foreign: set<nat>, r: nat)
    requires r < |j.entries| && j.entries[r].thread < |j.acc.threads|
  {
    r in j.guards.runs && r !in foreign ==> !j.acc.threads[j.entries[r].thread].local.Own?
  }

  ghost predicate Ordered<T>(j: Joint<T>, foreign: set<nat>) {
    && Valid(j) && Placed(j.acc.threads, j.entries, j.given)
    && forall r {:trigger PastUnless(j, foreign, r)} :: 0 <= r < |j.entries| ==> PastUnless(j, foreign, r)
  }

  lemma FinishFires(s: G.State, step: G.Action)
    requires G.Valid(s) && G.Enabled(s, step) && !step.Register? && !step.Next? && Fires(s, step)
    ensures step.Finish? && step.id !in s.runs && G.Do(s, step).runs == s.runs + [step.id]
  {
  }

  lemma GuardPast<T(!new)>(g: Group<T>, c: A.Costs<T>, j: Joint<T>, x: Action, foreign: set<nat>, r: nat)
    requires Ordered(j, foreign) && Enabled(j, x) && x.Guard? && r < |j.entries|
    ensures var j' := Do(g, c, j, x);
      j'.entries[r].thread < |j'.acc.threads| && PastUnless(j', foreign + Foreign(j, x), r)
  {
    assert PastUnless(j, foreign, r);
    GuardStep(j.guards, x.step);
    if Fires(j.guards, x.step) && !x.step.Next? {
      FinishFires(j.guards, x.step);
    }
  }

  lemma OtherPast<T(!new)>(g: Group<T>, c: A.Costs<T>, j: Joint<T>, x: Action, foreign: set<nat>, r: nat)
    requires Ordered(j, foreign) && Enabled(j, x) && !x.Guard? && r < |Do(g, c, j, x).entries|
    ensures var j' := Do(g, c, j, x); j'.entries[r].thread < |j'.acc.threads| && PastUnless(j', foreign, r)
  {
    RunsInRange(j);
    if x.Account? {
      AccountKeeps(g, c, j.acc, x.act);
    }
    if r < |j.entries| {
      assert PastUnless(j, foreign, r);
    }
  }

  lemma StepOrdered<T(!new)>(g: Group<T>, c: A.Costs<T>, j: Joint<T>, x: Action, foreign: set<nat>)
    requires Ordered(j, foreign) && Enabled(j, x)
    ensures Ordered(Do(g, c, j, x), foreign + Foreign(j, x))
  {
    var j' := Do(g, c, j, x);
    StepValid(g, c, j, x);
    StepPlaced(g, c, j, x);
    forall r | 0 <= r < |j'.entries| ensures PastUnless(j', foreign + Foreign(j, x), r) {
      if x.Guard? {
        GuardPast(g, c, j, x, foreign, r);
      } else {
        OtherPast(g, c, j, x, foreign, r);
      }
    }
  }

  lemma PushLeaves<T(!new)>(g: Group<T>, c: A.Costs<T>, j: Joint<T>, i: nat, foreign: set<nat>)
    requires Ordered(j, foreign) && LeftInTime(j) && Enabled(j, Push(i))
    ensures LeftInTime(Do(g, c, j, Push(i))) <==> !Takes(j, Push(i), foreign)
  {
    var j', r := Do(g, c, j, Push(i)), j.pending[i];
    RunsInRange(j);
    assert r in j.pending;
    assert PastUnless(j, foreign, r);
    var k := j.entries[r].thread;
    assert r in j'.given;
    if Takes(j, Push(i), foreign) {
      assert j'.acc.threads[k].local.Own?;
    }
  }

  lemma StepLeaves<T(!new)>(g: Group<T>, c: A.Costs<T>, j: Joint<T>, x: Action, foreign: set<nat>)
    requires Ordered(j, foreign) && LeftInTime(j) && Enabled(j, x)
    ensures LeftInTime(Do(g, c, j, x)) <==> !Takes(j, x, foreign)
  {
    RunsInRange(j);
    match x
    case Account(act) => AccountKeeps(g, c, j.acc, act);
    case Push(i) => PushLeaves(g, c, j, i, foreign);
    case _ =>
  }

  lemma {:induction false} ExclusiveFrom<T(!new)>(g: Group<T>, c: A.Costs<T>, j: Joint<T>, acts: seq<Action>,
                                                  foreign: set<nat>)
    requires Ordered(j, foreign) && LeftInTime(j) && Runs(g, c, j, acts)
    ensures AlwaysExclusive(g, c, j, acts) <==> NeverTakes(g, c, j, acts, foreign)
    decreases |acts|
  {
    ExclusiveState(j);
    if acts != [] {
      var next, more := Do(g, c, j, acts[0]), foreign + Foreign(j, acts[0]);
      StepOrdered(g, c, j, acts[0], foreign);
      StepLeaves(g, c, j, acts[0], foreign);
      ExclusiveState(next);
      if LeftInTime(next) {
        ExclusiveFrom(g, c, next, acts[1..], more);
      }
    }
  }

  // Use is exclusive in every state of a run exactly when no tracker is given back, after a drain has run the
  // finalizer on another thread, while its own thread still uses it
  lemma AlwaysExclusiveIff<T(!new)>(g: Group<T>, c: A.Costs<T>, capacity: nat, acts: seq<Action>)
    requires Runs(g, c, Start(g, capacity), acts)
    ensures AlwaysExclusive(g, c, Start(g, capacity), acts) <==> NeverTakes(g, c, Start(g, capacity), acts, {})
  {
    StartIsValid(g, capacity);
    ExclusiveFrom(g, c, Start(g, capacity), acts, {});
  }

  // ----- runs without drains

  predicate DrainFree(acts: seq<Action>) {
    forall i :: 0 <= i < |acts| && acts[i].Guard? ==> !acts[i].step.Next?
  }

  // A thread uses its tracker until its finalizer runs, and has left when the tracker is given back
  ghost predicate InStep<T>(j: Joint<T>, r: nat)
    requires r < |j.entries| && j.entries[r].thread < |j.acc.threads|
  {
    var e := j.entries[r];
    var local := j.acc.threads[e.thread].local;
    && (r !in j.guards.runs ==> local == A.Own(e.tracker))
    && (r in j.pending ==> local == A.Returning(e.tracker))
    && (r in j.given ==> local == A.Exited)
  }

  ghost predicate Orderly<T>(j: Joint<T>) {
    && Valid(j) && Placed(j.acc.threads, j.entries, j.given)
    && forall r {:trigger InStep(j, r)} :: 0 <= r < |j.entries| ==> InStep(j, r)
  }

  // The accounting actions that a step amounts to
  function Moves<T>(j: Joint<T>, x: Action): (r: seq<A.Action>)
    requires Enabled(j, x)
  {
    match x
    case Account(act) => [act]
    case Register(k) => [A.Register(k)]
    case Guard(step, runner) => if Fires(j.guards, step) then [A.BeginExit(runner)] else []
    case Push(i) => if j.pending[i] < |j.entries| then [A.GiveBack(j.entries[j.pending[i]].thread)] else []
  }

  lemma FinishMoves<T(!new)>(g: Group<T>, c: A.Costs<T>, j: Joint<T>, x: Action)
    requires Orderly(j) && Enabled(j, x) && x.Guard? && !x.step.Next? && Fires(j.guards, x.step)
    ensures A.Enabled(j.acc, A.BeginExit(x.runner))
    ensures Do(g, c, j, x).acc == A.Do(g, c, j.acc, A.BeginExit(x.runner))
  {
    FinishFires(j.guards, x.step);
    assert InStep(j, x.step.id);
  }

  lemma PushMoves<T(!new)>(g: Group<T>, c: A.Costs<T>, j: Joint<T>, i: nat)
    requires Orderly(j) && Enabled(j, Push(i))
    ensures j.pending[i] < |j.entries| && A.Enabled(j.acc, A.GiveBack(j.entries[j.pending[i]].thread))
    ensures Do(g, c, j, Push(i)).acc == A.Do(g, c, j.acc, A.GiveBack(j.entries[j.pending[i]].thread))
  {
    RunsInRange(j);
    assert j.pending[i] in j.pending;
    assert InStep(j, j.pending[i]);
  }

  lemma AccountInStep<T(!new)>(g: Group<T>, c: A.Costs<T>, j: Joint<T>, x: Action, r: nat)
    requires Orderly(j) && Enabled(j, x) && (x.Account? || x.Register?) && r < |Do(g, c, j, x).entries|
    ensures var j' := Do(g, c, j, x); j'.entries[r].thread < |j'.acc.threads| && InStep(j', r)
  {
    RunsInRange(j);
    if x.Account? {
      AccountKeeps(g, c, j.acc, x.act);
    }
    if r < |j.entries| {
      assert InStep(j, r);
    } else {
      assert r !in j.pending && r !in j.given;
    }
  }

  lemma GuardInStep<T(!new)>(g: Group<T>, c: A.Costs<T>, j: Joint<T>, x: Action, r: nat)
    requires Orderly(j) && Enabled(j, x) && x.Guard? && !x.step.Next? && r < |j.entries|
    ensures var j' := Do(g, c, j, x); j'.entries[r].thread < |j'.acc.threads| && InStep(j', r)
  {
    assert InStep(j, r);
    GuardStep(j.guards, x.step);
    if Fires(j.guards, x.step) {
      FinishFires(j.guards, x.step);
      FinishMoves(g, c, j, x);
    }
  }

  lemma PushInStep<T(!new)>(g: Group<T>, c: A.Costs<T>, j: Joint<T>, i: nat, r: nat)
    requires Orderly(j) && Enabled(j, Push(i)) && r < |j.entries|
    ensures var j' := Do(g, c, j, Push(i)); j'.entries[r].thread < |j'.acc.threads| && InStep(j', r)
  {
    PushMoves(g, c, j, i);
    assert InStep(j, r) && InStep(j, j.pending[i]);
    assert j.pending[i] in j.pending;
    ClaimsPush(j.guards.runs, j.pending, j.given, i);
    assert j.pending == j.pending[..i] + [j.pending[i]] + j.pending[i + 1..];
  }

  lemma StepOrderly<T(!new)>(g: Group<T>, c: A.Costs<T>, j: Joint<T>, x: Action)
    requires Orderly(j) && Enabled(j, x) && (x.Guard? ==> !x.step.Next?)
    ensures Orderly(Do(g, c, j, x))
  {
    var j' := Do(g, c, j, x);
    StepValid(g, c, j, x);
    StepPlaced(g, c, j, x);
    forall r | 0 <= r < |j'.entries| ensures InStep(j', r) {
      match x
      case Guard(_, _) => GuardInStep(g, c, j, x, r);
      case Push(i) => PushInStep(g, c, j, i, r);
      case _ => AccountInStep(g, c, j, x, r);
    }
  }

  lemma StepMoves<T(!new)>(g: Group<T>, c: A.Costs<T>, j: Joint<T>, x: Action)
    requires Orderly(j) && Enabled(j, x) && (x.Guard? ==> !x.step.Next?)
    ensures R.Runs(g, c, j.acc, Moves(j, x)) && R.After(g, c, j.acc, Moves(j, x)) == Do(g, c, j, x).acc
  {
    if x.Guard? && Fires(j.guards, x.step) {
      FinishMoves(g, c, j, x);
    } else if x.Push? {
      PushMoves(g, c, j, x.index);
    }
  }

  ghost function AllMoves<T>(g: Group<T>, c: A.Costs<T>, j: Joint<T>, acts: seq<Action>): (r: seq<A.Action>)
    requires Runs(g, c, j, acts)
    decreases |acts|
  {
    if acts == [] then [] else Moves(j, acts[0]) + AllMoves(g, c, Do(g, c, j, acts[0]), acts[1..])
  }

  lemma JoinRuns<T(!new)>(g: Group<T>, c: A.Costs<T>, s: A.State<T>, first: seq<A.Action>, rest: seq<A.Action>)
    requires |first| <= 1 && R.Runs(g, c, s, first) && R.Runs(g, c, R.After(g, c, s, first), rest)
    ensures R.Runs(g, c, s, first + rest)
    ensures R.After(g, c, s, first + rest) == R.After(g, c, R.After(g, c, s, first), rest)
  {
    if first == [] {
      assert first + rest == rest;
    } else {
      var next := A.Do(g, c, s, first[0]);
      assert first[1..] == [] && (first + rest)[1..] == rest;
      assert R.After(g, c, s, first) == R.After(g, c, next, []) == next;
    }
  }

  lemma {:induction false} RunIsOrderly<T(!new)>(g: Group<T>, c: A.Costs<T>, j: Joint<T>, acts: seq<Action>)
    requires Orderly(j) && Runs(g, c, j, acts) && DrainFree(acts)
    ensures Orderly(After(g, c, j, acts))
    ensures R.Runs(g, c, j.acc, AllMoves(g, c, j, acts))
    ensures R.After(g, c, j.acc, AllMoves(g, c, j, acts)) == After(g, c, j, acts).acc
    decreases |acts|
  {
    if acts != [] {
      var next := Do(g, c, j, acts[0]);
      StepOrderly(g, c, j, acts[0]);
      StepMoves(g, c, j, acts[0]);
      RunIsOrderly(g, c, next, acts[1..]);
      JoinRuns(g, c, j.acc, Moves(j, acts[0]), AllMoves(g, c, next, acts[1..]));
    }
  }

  // Without drains a guarded run is a run of the accounting state machine that ends in the same state, and the
  // tracker that a thread uses is its own
  lemma DrainFreeIsAccounting<T(!new)>(g: Group<T>, c: A.Costs<T>, capacity: nat, acts: seq<Action>)
    requires Runs(g, c, Start(g, capacity), acts) && DrainFree(acts)
    ensures var j, moves := After(g, c, Start(g, capacity), acts), AllMoves(g, c, Start(g, capacity), acts);
      && R.Runs(g, c, A.Start(g, capacity), moves) && R.After(g, c, A.Start(g, capacity), moves) == j.acc
      && Exclusive(j.acc)
  {
    var j := After(g, c, Start(g, capacity), acts);
    StartIsValid(g, capacity);
    RunIsOrderly(g, c, Start(g, capacity), acts);
    forall r | r in j.given && r < |j.entries| ensures j.acc.threads[j.entries[r].thread].local == A.Exited {
      assert InStep(j, r);
    }
    ExclusiveIff(g, c, capacity, acts);
  }

  // ----- nothing is lost, drains or not

  ghost predicate Books<T(!new)>(g: Group<T>, c: A.Costs<T>, s: A.State<T>) {
    A.Conserved(g, c, s) && A.HandOk(g, s) && R.TotalsOk(g, s)
  }

  lemma SwitchKeepsBooks<T(!new)>(g: Group<T>, c: A.Costs<T>, s: A.State<T>, k: nat, local: A.Local)
    requires Books(g, c, s) && k < |s.threads|
    ensures Books(g, c, A.SetLocal(s, k, local))
  {
    A.InnerConserves(g, c, s, k, s.threads[k].(local := local));
  }

  lemma FreeKeepsBooks<T(!new)>(g: Group<T>, c: A.Costs<T>, s: A.State<T>, finished: seq<nat>)
    requires Books(g, c, s)
    ensures Books(g, c, s.(finished := finished))
  {
    A.StillConserved(g, c, s, s.(finished := finished));
  }

  lemma StepKeepsBooks<T(!new)>(g: Group<T>, c: A.Costs<T>, j: Joint<T>, x: Action)
    requires Lawful(g) && Books(g, c, j.acc) && Enabled(j, x)
    ensures Books(g, c, Do(g, c, j, x).acc)
  {
    match x
    case Account(act) =>
      A.StepConserves(g, c, j.acc, act);
      R.StepTotals(g, c, j.acc, act);
    case Register(k) =>
      A.StepConserves(g, c, j.acc, A.Register(k));
      R.StepTotals(g, c, j.acc, A.Register(k));
    case Guard(step, runner) =>
      SwitchKeepsBooks(g, c, j.acc, runner, Leave(j, runner).threads[runner].local);
    case Push(i) =>
      var r := j.pending[i];
      if r < |j.entries| {
        var e := j.entries[r];
        var s := j.acc.(finished := j.acc.finished + [e.tracker]);
        FreeKeepsBooks(g, c, j.acc, s.finished);
        if e.thread < |s.threads| {
          SwitchKeepsBooks(g, c, s, e.thread, A.Exited);
        }
      }
  }

  // In every guarded run, drains included, trackers, ring, hands, worker, writer and skipped operations
  // hold for every trace exactly what was submitted
  lemma {:induction false} GuardedRunConserves<T(!new)>(g: Group<T>, c: A.Costs<T>, j: Joint<T>, acts: seq<Action>)
    requires Lawful(g) && Books(g, c, j.acc) && Runs(g, c, j, acts)
    ensures Books(g, c, After(g, c, j, acts).acc)
    decreases |acts|
  {
    if acts != [] {
      StepKeepsBooks(g, c, j, acts[0]);
      GuardedRunConserves(g, c, Do(g, c, j, acts[0]), acts[1..]);
    }
  }

  // ----- a drain that takes a tracker in use

  lemma Chain<T(!new)>(g: Group<T>, c: A.Costs<T>, j: Joint<T>, x: Action,
                       rest: seq<Action>) returns (acts: seq<Action>)
    requires Enabled(j, x) && Runs(g, c, Do(g, c, j, x), rest)
    ensures Runs(g, c, j, acts) && After(g, c, j, acts) == After(g, c, Do(g, c, j, x), rest)
  {
    acts := [x] + rest;
    assert acts[1..] == rest;
  }

  // Thread 0 has registered, got tracker 0 and uses it; thread 2 has not registered
  ghost predicate FirstRegistered<T>(j: Joint<T>) {
    && |j.acc.threads| == 3 && A.Unlocked(j.acc)
    && j.acc.threads[0].local == A.Own(0) && j.acc.threads[1].local.Unset? && j.acc.threads[2].local.Unset?
    && j.entries == [Entry(0, 0)] && j.given == []
  }

  lemma FirstRegisters<T(!new)>(g: Group<T>, c: A.Costs<T>, j: Joint<T>)
    requires |j.acc.threads| == 3 && (forall k :: 0 <= k < 3 ==> j.acc.threads[k].local.Unset?) && A.Unlocked(j.acc)
    requires j.acc.trackers == [] && j.acc.finished == [] && j.guards == G.START
    requires j.entries == [] && j.pending == [] && j.given == []
    ensures Enabled(j, Register(0))
    ensures var j' := Do(g, c, j, Register(0));
      && FirstRegistered(j') && j'.pending == [] && j'.acc.finished == []
      && j'.guards == G.State([G.Held], [0], [], {}, [])
  {
  }

  lemma DrainBegins<T(!new)>(g: Group<T>, c: A.Costs<T>, j: Joint<T>)
    requires FirstRegistered(j) && j.pending == [] && j.acc.finished == []
    requires j.guards == G.State([G.Held], [0], [], {}, [])
    ensures Enabled(j, Guard(G.Swap, 1))
    ensures var j' := Do(g, c, j, Guard(G.Swap, 1));
      && FirstRegistered(j') && j'.pending == [] && j'.acc.finished == []
      && j'.guards == G.State([G.Held], [], [[0]], {}, [])
  {
  }

  lemma DrainRuns<T(!new)>(g: Group<T>, c: A.Costs<T>, j: Joint<T>)
    requires FirstRegistered(j) && j.pending == [] && j.acc.finished == []
    requires j.guards == G.State([G.Held], [], [[0]], {}, [])
    ensures Enabled(j, Guard(G.Next(0), 1))
    ensures var j' := Do(g, c, j, Guard(G.Next(0), 1));
      && |j'.acc.threads| == 3 && j'.acc.threads[0].local == A.Own(0) && j'.acc.threads[2].local.Unset?
      && A.Unlocked(j'.acc) && j'.pending == [0] && j'.acc.finished == [] && j'.entries == [Entry(0, 0)]
  {
    assert G.Do(j.guards, G.Next(0)).runs == [0];
  }

  lemma DrainPushes<T(!new)>(g: Group<T>, c: A.Costs<T>, j: Joint<T>)
    requires |j.acc.threads| == 3 && j.acc.threads[0].local == A.Own(0) && j.acc.threads[2].local.Unset?
    requires A.Unlocked(j.acc) && j.pending == [0] && j.acc.finished == [] && j.entries == [Entry(0, 0)]
    ensures Enabled(j, Push(0))
    ensures var j' := Do(g, c, j, Push(0));
      && |j'.acc.threads| == 3 && j'.acc.threads[0].local == A.Own(0) && j'.acc.threads[2].local.Unset?
      && A.Unlocked(j'.acc) && j'.acc.finished == [0]
  {
  }

  lemma ThirdRegisters<T(!new)>(g: Group<T>, c: A.Costs<T>, j: Joint<T>)
    requires |j.acc.threads| == 3 && j.acc.threads[0].local == A.Own(0) && j.acc.threads[2].local.Unset?
    requires A.Unlocked(j.acc) && j.acc.finished == [0]
    ensures Enabled(j, Register(2))
    ensures var s := Do(g, c, j, Register(2)).acc;
      |s.threads| == 3 && s.threads[0].local == s.threads[2].local == A.Own(0) && !Exclusive(s)
  {
    assert !UsesAlone(Do(g, c, j, Register(2)).acc, 0);
  }

  // Thread 0 registers, thread 1 drains the guards, thread 2 registers: threads 0 and 2 use the same tracker
  lemma DrainShares<T(!new)>(g: Group<T>, c: A.Costs<T>, capacity: nat) returns (acts: seq<Action>)
    ensures Runs(g, c, Start(g, capacity), acts)
    ensures var s := After(g, c, Start(g, capacity), acts).acc;
      |s.threads| == 3 && s.threads[0].local == s.threads[2].local == A.Own(0) && !Exclusive(s)
  {
    var j0 := Start(g, capacity);
    var j1 := Do(g, c, j0, Account(A.Spawn));
    var j2 := Do(g, c, j1, Account(A.Spawn));
    var j3 := Do(g, c, j2, Account(A.Spawn));
    FirstRegisters(g, c, j3);
    var j4 := Do(g, c, j3, Register(0));
    DrainBegins(g, c, j4);
    var j5 := Do(g, c, j4, Guard(G.Swap, 1));
    DrainRuns(g, c, j5);
    var j6 := Do(g, c, j5, Guard(G.Next(0), 1));
    DrainPushes(g, c, j6);
    var j7 := Do(g, c, j6, Push(0));
    ThirdRegisters(g, c, j7);
    acts := Chain(g, c, j7, Register(2), []);
    acts := Chain(g, c, j6, Push(0), acts);
    acts := Chain(g, c, j5, Guard(G.Next(0), 1), acts);
    acts := Chain(g, c, j4, Guard(G.Swap, 1), acts);
    acts := Chain(g, c, j3, Register(0), acts);
    acts := Chain(g, c, j2, Account(A.Spawn), acts);
    acts := Chain(g, c, j1, Account(A.Spawn), acts);
    acts := Chain(g, c, j0, Account(A.Spawn), acts);
  }
}
