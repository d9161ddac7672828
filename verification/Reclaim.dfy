/**
 Guards and trackers together. Registering a thread hands out a tracker and
 registers a finalizer that gives it back; the finalizer is run by the guard's
 destructor on the thread itself, or by a drain on some other thread. It first
 switches the thread that runs it to the tracker for exiting threads, and then
 puts the registration's tracker on the free list under the lock.
 */
module Reclaim {
  import opened Groups
  import A = Accounting
  import R = AccountingRuns
  import G = Guards

  // The thread of a registration, and the tracker it got
  datatype Entry = Entry(thread: nat, tracker: nat)

  datatype Joint<T> = Joint(
    acc: A.State<T>,
    guards: G.State,
    entries: seq<Entry>,
    // finalizers that have switched the tracker and wait for the lock, and those that have finished, by registration
    pending: seq<nat>,
    given: seq<nat>)

  function Start<T>(g: Group<T>, capacity: nat): (j: Joint<T>) {
    Joint(A.Start(g, capacity), G.START, [], [], [])
  }

  datatype Action =
    | Account(act: A.Action)
    | Register(thread: nat)
    | Guard(step: G.Action, runner: nat)
    | Push(index: nat)

  predicate Enabled<T>(j: Joint<T>, x: Action) {
    match x
    case Account(act) => A.Enabled(j.acc, act) && !act.Register? && !act.BeginExit? && !act.GiveBack?
    case Register(k) => A.Enabled(j.acc, A.Register(k))
    case Guard(step, runner) =>
      && runner < |j.acc.threads| && !step.Register? && G.Enabled(j.guards, step)
      && (step.Unlink? || step.Finish? ==> step.id < |j.entries| && runner == j.entries[step.id].thread)
    case Push(i) => i < |j.pending| && A.Unlocked(j.acc)
  }

  // The thread's own tracker is on the free list or in other hands already
  predicate Reclaimed<T>(j: Joint<T>, k: nat) {
    exists r :: r in j.given && r < |j.entries| && j.entries[r].thread == k
  }

  // The thread uses the tracker for exiting threads from now on
  function Leave<T>(j: Joint<T>, k: nat): (r: A.State<T>)
    requires k < |j.acc.threads|
  {
    match j.acc.threads[k].local
    case Own(id) => A.SetLocal(j.acc, k, if Reclaimed(j, k) then A.Exited else A.Returning(id))
    case Unset => A.SetLocal(j.acc, k, A.Exited)
    case _ => j.acc
  }

  // The tracker goes on the free list; its thread has given it back if it was about to
  function Freed<T>(j: Joint<T>, r: nat): (s: A.State<T>)
    requires r < |j.entries|
  {
    var e := j.entries[r];
    var s := j.acc.(finished := j.acc.finished + [e.tracker]);
    if e.thread < |s.threads| && s.threads[e.thread].local == A.Returning(e.tracker) then
      A.SetLocal(s, e.thread, A.Exited)
    else s
  }

  // The guards' step has run a finalizer
  predicate Fires(s: G.State, step: G.Action)
    requires G.Enabled(s, step)
  {
    |G.Do(s, step).runs| > |s.runs|
  }

  function Do<T>(g: Group<T>, c: A.Costs<T>, j: Joint<T>, x: Action): (r: Joint<T>)
    requires Enabled(j, x)
  {
    match x
    case Account(act) => j.(acc := A.Do(g, c, j.acc, act))
    case Register(k) =>
      var acc := A.Do(g, c, j.acc, A.Register(k));
      j.(acc := acc, guards := G.Do(j.guards, G.Register), entries := j.entries + [Entry(k, acc.threads[k].local.id)])
    case Guard(step, runner) =>
      var after := G.Do(j.guards, step);
      if Fires(j.guards, step) then
        j.(guards := after, acc := Leave(j, runner), pending := j.pending + [after.runs[|after.runs| - 1]])
      else j.(guards := after)
    case Push(i) =>
      var r := j.pending[i];
      j.(acc := if r < |j.entries| then Freed(j, r) else j.acc,
         pending := j.pending[..i] + j.pending[i + 1..],
         given := j.given + [r])
  }

  // ----- every registration gives back once

  ghost predicate Unique(s: seq<nat>) {
    forall a, b :: 0 <= a < b < |s| ==> s[a] != s[b]
  }

  // A finalizer that has run is either waiting for the lock or done, never both and never twice
  ghost predicate Claims(runs: seq<nat>, pending: seq<nat>, given: seq<nat>) {
    && Unique(pending) && Unique(given)
    && (forall r :: r in pending ==> r !in given)
    && (forall r :: r in runs <==> r in pending || r in given)
  }

  // A registration that has not given its tracker back
  ghost predicate Live(entries: seq<Entry>, given: seq<nat>, r: nat) {
    r < |entries| && r !in given
  }

  ghost predicate LiveOn(entries: seq<Entry>, given: seq<nat>, x: nat) {
    exists r: nat :: Live(entries, given, r) && entries[r].tracker == x
  }

  // Every one of n trackers is on the free list once, or belongs to one registration that has not given it back
  ghost predicate Shared(n: nat, finished: seq<nat>, entries: seq<Entry>, given: seq<nat>) {
    && (forall x :: x in finished ==> x < n)
    && Unique(finished)
    && (forall r :: 0 <= r < |entries| ==> entries[r].tracker < n)
    && (forall r: nat :: Live(entries, given, r) ==> entries[r].tracker !in finished)
    && (forall r: nat, q: nat :: Live(entries, given, r) && Live(entries, given, q) && r != q ==>
          entries[r].tracker != entries[q].tracker)
    && (forall x: nat {:trigger LiveOn(entries, given, x)} :: x < n ==> x in finished || LiveOn(entries, given, x))
  }

  ghost predicate Valid<T>(j: Joint<T>) {
    && G.Valid(j.guards) && |j.guards.guards| == |j.entries|
    && Claims(j.guards.runs, j.pending, j.given)
    && Shared(|j.acc.trackers|, j.acc.finished, j.entries, j.given)
  }

  lemma RunsInRange<T>(j: Joint<T>)
    requires Valid(j)
    ensures forall r :: r in j.pending || r in j.given ==> r < |j.entries|
  {
    forall r | r in j.pending || r in j.given ensures r < |j.entries| {
      assert r in j.guards.runs;
      assert r in j.guards.executed;
    }
  }

  // A step of the guards runs at most one finalizer, and one that has not run before
  lemma GuardStep(s: G.State, step: G.Action)
    requires G.Valid(s) && G.Enabled(s, step) && !step.Register?
    ensures var s' := G.Do(s, step);
      && G.Valid(s') && |s'.guards| == |s.guards|
      && (!Fires(s, step) ==> s'.runs == s.runs)
      && (Fires(s, step) ==> |s'.runs| == |s.runs| + 1 && s'.runs[..|s.runs|] == s.runs && s'.runs[|s.runs|] !in s.runs)
  {
    G.StepValid(s, step);
    var s' := G.Do(s, step);
    if Fires(s, step) {
      forall i | 0 <= i < |s.runs| ensures s.runs[i] != s'.runs[|s.runs|] {
        assert s'.runs[i] == s.runs[i];
      }
    }
  }

  lemma ClaimsFire(runs: seq<nat>, after: seq<nat>, pending: seq<nat>, given: seq<nat>)
    requires Claims(runs, pending, given)
    requires |after| == |runs| + 1 && after[..|runs|] == runs && after[|runs|] !in runs
    ensures Claims(after, pending + [after[|runs|]], given)
  {
    assert after == runs + [after[|runs|]];
  }

  lemma ClaimsPush(runs: seq<nat>, pending: seq<nat>, given: seq<nat>, i: nat)
    requires Claims(runs, pending, given) && i < |pending|
    ensures Claims(runs, pending[..i] + pending[i + 1..], given + [pending[i]])
  {
    var r, rest := pending[i], pending[..i] + pending[i + 1..];
    assert pending == pending[..i] + [r] + pending[i + 1..];
    assert forall q :: q in pending <==> q == r || q in rest;
    forall b | 0 <= b < |rest| ensures rest[b] == pending[if b < i then b else b + 1] {
    }
    assert r in pending;
  }

  lemma LiveMore(entries: seq<Entry>, given: seq<nat>, e: Entry, x: nat)
    requires LiveOn(entries, given, x)
    ensures LiveOn(entries + [e], given, x)
  {
    var r: nat :| Live(entries, given, r) && entries[r].tracker == x;
    assert Live(entries + [e], given, r) && (entries + [e])[r].tracker == x;
  }

  // The tracker of a new registration is new, or comes off the free list
  lemma SharedRegister(n: nat, finished: seq<nat>, m: nat, left: seq<nat>, entries: seq<Entry>, given: seq<nat>,
                       e: Entry)
    requires Shared(n, finished, entries, given) && forall r :: r in given ==> r < |entries|
    requires if finished == [] then m == n + 1 && left == [] && e.tracker == n
             else m == n && finished == left + [e.tracker]
    ensures Shared(m, left, entries + [e], given)
  {
    var more, k := entries + [e], |entries|;
    assert forall r: nat :: Live(more, given, r) <==> Live(entries, given, r) || r == k;
    assert Live(more, given, k) && more[k].tracker == e.tracker;
    if finished != [] {
      assert finished[|left|] == e.tracker;
      forall a | 0 <= a < |left| ensures left[a] == finished[a] != e.tracker {
      }
      assert e.tracker !in left && e.tracker in finished;
      assert forall x :: x in left ==> x in finished;
    }
    forall r: nat | Live(entries, given, r) ensures more[r].tracker == entries[r].tracker != e.tracker {
    }
    forall x: nat {:trigger LiveOn(more, given, x)} | x < m ensures x in left || LiveOn(more, given, x) {
      if x != e.tracker && x !in left {
        assert LiveOn(entries, given, x);
        LiveMore(entries, given, e, x);
      }
    }
  }

  // Giving back moves the tracker of the registration to the free list
  lemma SharedPush(n: nat, finished: seq<nat>, entries: seq<Entry>, given: seq<nat>, r: nat)
    requires Shared(n, finished, entries, given) && Live(entries, given, r)
    ensures Shared(n, finished + [entries[r].tracker], entries, given + [r])
  {
    var x, free, done := entries[r].tracker, finished + [entries[r].tracker], given + [r];
    assert forall q: nat :: Live(entries, done, q) <==> Live(entries, given, q) && q != r;
    forall y: nat {:trigger LiveOn(entries, done, y)} | y < n ensures y in free || LiveOn(entries, done, y) {
      if y != x && y !in finished {
        assert LiveOn(entries, given, y);
        var q: nat :| Live(entries, given, q) && entries[q].tracker == y;
        assert Live(entries, done, q);
      }
    }
  }

  // What accounting and draining leave alone
  lemma AccountKeeps<T(!new)>(g: Group<T>, c: A.Costs<T>, s: A.State<T>, act: A.Action)
    requires A.Enabled(s, act) && !act.Register? && !act.BeginExit? && !act.GiveBack?
    ensures var s' := A.Do(g, c, s, act);
      && |s'.trackers| == |s.trackers| && s'.finished == s.finished
      && |s.threads| <= |s'.threads| && (!act.Spawn? ==> |s'.threads| == |s.threads|)
      && (forall k :: 0 <= k < |s.threads| ==> s'.threads[k].local == s.threads[k].local)
      && (forall k :: |s.threads| <= k < |s'.threads| ==> s'.threads[k].local.Unset?)
  {
    if !act.Spawn? {
      R.AccountingKeepsOwners(g, c, s, act);
    }
  }

  lemma RegisterStep<T(!new)>(g: Group<T>, c: A.Costs<T>, j: Joint<T>, k: nat)
    requires Shared(|j.acc.trackers|, j.acc.finished, j.entries, j.given) && Enabled(j, Register(k))
    requires forall r :: r in j.given ==> r < |j.entries|
    ensures var j' := Do(g, c, j, Register(k)); Shared(|j'.acc.trackers|, j'.acc.finished, j'.entries, j'.given)
  {
    var j' := Do(g, c, j, Register(k));
    SharedRegister(|j.acc.trackers|, j.acc.finished, |j'.acc.trackers|, j'.acc.finished, j.entries, j.given,
                   j'.entries[|j.entries|]);
  }

  lemma StepValid<T(!new)>(g: Group<T>, c: A.Costs<T>, j: Joint<T>, x: Action)
    requires Valid(j) && Enabled(j, x)
    ensures Valid(Do(g, c, j, x))
  {
    var j' := Do(g, c, j, x);
    match x
    case Account(act) =>
      AccountKeeps(g, c, j.acc, act);
    case Register(k) =>
      G.StepValid(j.guards, G.Register);
      RunsInRange(j);
      RegisterStep(g, c, j, k);
    case Guard(step, runner) =>
      GuardStep(j.guards, step);
      if Fires(j.guards, step) {
        ClaimsFire(j.guards.runs, j'.guards.runs, j.pending, j.given);
      }
    case Push(i) =>
      ClaimsPush(j.guards.runs, j.pending, j.given, i);
      RunsInRange(j);
      assert j.pending[i] in j.pending;
      SharedPush(|j.acc.trackers|, j.acc.finished, j.entries, j.given, j.pending[i]);
  }

  // ----- whole runs

  ghost predicate Runs<T>(g: Group<T>, c: A.Costs<T>, j: Joint<T>, acts: seq<Action>)
    decreases |acts|
  {
    acts == [] || (Enabled(j, acts[0]) && Runs(g, c, Do(g, c, j, acts[0]), acts[1..]))
  }

  ghost function After<T>(g: Group<T>, c: A.Costs<T>, j: Joint<T>, acts: seq<Action>): (r: Joint<T>)
    requires Runs(g, c, j, acts)
    decreases |acts|
  {
    if acts == [] then j else After(g, c, Do(g, c, j, acts[0]), acts[1..])
  }

  lemma {:induction false} RunIsValid<T(!new)>(g: Group<T>, c: A.Costs<T>, j: Joint<T>, acts: seq<Action>)
    requires Valid(j) && Runs(g, c, j, acts)
    ensures Valid(After(g, c, j, acts))
    decreases |acts|
  {
    if acts != [] {
      StepValid(g, c, j, acts[0]);
      RunIsValid(g, c, Do(g, c, j, acts[0]), acts[1..]);
    }
  }

  lemma StartIsValid<T(!new)>(g: Group<T>, capacity: nat)
    ensures Valid(Start(g, capacity))
  {
    assert G.Valid(G.START);
  }

  // In every interleaving, drains included, every registration gives its tracker back at most once, and every
  // tracker is on the free list exactly once or belongs to exactly one registration that has not given it back
  lemma GivenBackOnce<T(!new)>(g: Group<T>, c: A.Costs<T>, capacity: nat, acts: seq<Action>)
    requires Runs(g, c, Start(g, capacity), acts)
    ensures var j := After(g, c, Start(g, capacity), acts);
      Unique(j.given) && Shared(|j.acc.trackers|, j.acc.finished, j.entries, j.given)
  {
    StartIsValid(g, capacity);
    RunIsValid(g, c, Start(g, capacity), acts);
  }

  // Once no guard is held or under way and no finalizer waits, every registration has given its tracker back once,
  // and all trackers are free
  lemma AllGivenBack<T(!new)>(g: Group<T>, c: A.Costs<T>, capacity: nat, acts: seq<Action>)
    requires Runs(g, c, Start(g, capacity), acts)
    requires var j := After(g, c, Start(g, capacity), acts); G.Settled(j.guards) && j.pending == []
    ensures var j := After(g, c, Start(g, capacity), acts);
      && Unique(j.given) && (forall r :: r in j.given <==> 0 <= r < |j.entries|)
      && (forall x :: 0 <= x < |j.acc.trackers| ==> x in j.acc.finished)
  {
    var j := After(g, c, Start(g, capacity), acts);
    StartIsValid(g, capacity);
    RunIsValid(g, c, Start(g, capacity), acts);
    RunsInRange(j);
    forall r | 0 <= r < |j.entries| ensures r in j.given {
      assert G.Remembered(j.guards, r);
      assert r in j.guards.runs;
    }
    forall x | 0 <= x < |j.acc.trackers| ensures x in j.acc.finished {
      assert x in j.acc.finished || LiveOn(j.entries, j.given, x);
    }
  }
}
