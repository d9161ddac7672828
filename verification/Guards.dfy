/**
 Finalizers that are owned both by a guard and by a shared list. Whoever comes
 first, the guard's destructor or a drain of the list, runs the finalizer.

 The unlinking of a guard, the swap of a drain, and the exchange of the
 executed flag are the atomic actions.
 */
module Guards {
  // A guard is held, or its destructor has unlinked it, or the destructor has returned
  datatype Guard = Held | Unlinked | Gone

  datatype State = State(
    guards: seq<Guard>,
    callbacks: seq<nat>,
    drains: seq<seq<nat>>,
    executed: set<nat>,
    runs: seq<nat>)

  const START := State([], [], [], {}, [])

  datatype Action =
    | Register
    | Unlink(id: nat)
    | Finish(id: nat)
    | Swap
    | Next(drain: nat)

  predicate Enabled(s: State, a: Action) {
    match a
    case Register => true
    case Unlink(id) => id < |s.guards| && s.guards[id].Held?
    case Finish(id) => id < |s.guards| && s.guards[id].Unlinked?
    case Swap => true
    case Next(d) => d < |s.drains| && s.drains[d] != []
  }

  function Without(list: seq<nat>, id: nat): (r: seq<nat>) {
    if list == [] then []
    else (if list[0] == id then [] else [list[0]]) + Without(list[1..], id)
  }

  // The exchange of the executed flag: only the first one runs the callback
  function Execute(s: State, id: nat): (r: State) {
    if id in s.executed then s
    else s.(executed := s.executed + {id}, runs := s.runs + [id])
  }

  function Do(s: State, a: Action): (r: State)
    requires Enabled(s, a)
  {
    match a
    case Register => s.(guards := s.guards + [Held], callbacks := s.callbacks + [|s.guards|])
    case Unlink(id) => s.(guards := s.guards[id := Unlinked], callbacks := Without(s.callbacks, id))
    case Finish(id) => Execute(s.(guards := s.guards[id := Gone]), id)
    case Swap => s.(drains := s.drains + [s.callbacks], callbacks := [])
    case Next(d) => Execute(s.(drains := s.drains[d := s.drains[d][1..]]), s.drains[d][0])
  }

  // ----- invariants

  ghost predicate InDrain(s: State, id: nat) {
    exists d :: 0 <= d < |s.drains| && id in s.drains[d]
  }

  // No finalizer that has not run is forgotten
  ghost predicate Remembered(s: State, id: nat)
    requires id < |s.guards|
  {
    id in s.executed || id in s.callbacks || s.guards[id].Unlinked? || InDrain(s, id)
  }

  ghost predicate Valid(s: State) {
    && (forall i, j :: 0 <= i < j < |s.runs| ==> s.runs[i] != s.runs[j])
    && (forall id :: id in s.runs <==> id in s.executed)
    && (forall id :: id in s.executed ==> id < |s.guards|)
    && (forall id :: id in s.callbacks ==> id < |s.guards|)
    && (forall d, id :: 0 <= d < |s.drains| && id in s.drains[d] ==> id < |s.guards|)
    && (forall id :: 0 <= id < |s.guards| && s.guards[id].Gone? ==> id in s.executed)
    && (forall id :: 0 <= id < |s.guards| ==> Remembered(s, id))
  }

  lemma {:induction false} WithoutIs(list: seq<nat>, id: nat)
    ensures forall x :: x in Without(list, id) <==> x in list && x != id
  {
    if list != [] {
      WithoutIs(list[1..], id);
      assert forall x :: x in list <==> x == list[0] || x in list[1..];
    }
  }

  lemma ExecuteValid(s: State, s': State, id: nat)
    requires s' == Execute(s, id) && id < |s.guards|
    requires (forall i, j :: 0 <= i < j < |s.runs| ==> s.runs[i] != s.runs[j])
    requires forall x :: x in s.runs <==> x in s.executed
    ensures (forall i, j :: 0 <= i < j < |s'.runs| ==> s'.runs[i] != s'.runs[j])
    ensures forall x :: x in s'.runs <==> x in s'.executed
    ensures s'.executed == s.executed + {id}
  {
    if id !in s.executed {
      forall i | 0 <= i < |s.runs| ensures s.runs[i] != id {
        assert s.runs[i] in s.runs;
      }
    }
  }

  lemma RegisterValid(s: State)
    requires Valid(s)
    ensures Valid(Do(s, Register))
  {
    var s' := Do(s, Register);
    forall id | 0 <= id < |s'.guards| ensures Remembered(s', id) {
      if id < |s.guards| {
        assert Remembered(s, id);
        assert InDrain(s, id) ==> InDrain(s', id);
      }
    }
  }

  lemma UnlinkValid(s: State, a: Action)
    requires Valid(s) && a.Unlink? && Enabled(s, a)
    ensures Valid(Do(s, a))
  {
    var s' := Do(s, a);
    WithoutIs(s.callbacks, a.id);
    forall id | 0 <= id < |s'.guards| ensures Remembered(s', id) {
      assert Remembered(s, id);
      assert InDrain(s, id) ==> InDrain(s', id);
    }
  }

  lemma FinishValid(s: State, a: Action)
    requires Valid(s) && a.Finish? && Enabled(s, a)
    ensures Valid(Do(s, a))
  {
    var s' := Do(s, a);
    ExecuteValid(s.(guards := s.guards[a.id := Gone]), s', a.id);
    forall id | 0 <= id < |s'.guards| ensures Remembered(s', id) {
      assert Remembered(s, id);
      assert InDrain(s, id) ==> InDrain(s', id);
    }
  }

  lemma SwapValid(s: State)
    requires Valid(s)
    ensures Valid(Do(s, Swap))
  {
    var s' := Do(s, Swap);
    forall id | 0 <= id < |s'.guards| ensures Remembered(s', id) {
      assert Remembered(s, id);
      if id in s.callbacks {
        assert id in s'.drains[|s.drains|];
      } else if InDrain(s, id) {
        var d :| 0 <= d < |s.drains| && id in s.drains[d];
        assert id in s'.drains[d];
      }
    }
  }

  lemma NextValid(s: State, a: Action)
    requires Valid(s) && a.Next? && Enabled(s, a)
    ensures Valid(Do(s, a))
  {
    var s' := Do(s, a);
    var x := s.drains[a.drain][0];
    assert x in s.drains[a.drain];
    ExecuteValid(s.(drains := s.drains[a.drain := s.drains[a.drain][1..]]), s', x);
    forall d, id | 0 <= d < |s'.drains| && id in s'.drains[d] ensures id < |s'.guards| {
      assert id in s.drains[d];
    }
    forall id | 0 <= id < |s'.guards| ensures Remembered(s', id) {
      assert Remembered(s, id);
      if id != x && InDrain(s, id) {
        var d :| 0 <= d < |s.drains| && id in s.drains[d];
        assert id in s'.drains[d];
      }
    }
  }

  lemma StepValid(s: State, a: Action)
    requires Valid(s) && Enabled(s, a)
    ensures Valid(Do(s, a))
  {
    match a
    case Register => RegisterValid(s);
    case Unlink(id) => UnlinkValid(s, a);
    case Finish(id) => FinishValid(s, a);
    case Swap => SwapValid(s);
    case Next(d) => NextValid(s, a);
  }

  ghost predicate Runs(s: State, acts: seq<Action>)
    decreases |acts|
  {
    acts == [] || (Enabled(s, acts[0]) && Runs(Do(s, acts[0]), acts[1..]))
  }

  ghost function After(s: State, acts: seq<Action>): (r: State)
    requires Runs(s, acts)
    decreases |acts|
  {
    if acts == [] then s else After(Do(s, acts[0]), acts[1..])
  }

  lemma {:induction false} RunIsValid(s: State, acts: seq<Action>)
    requires Valid(s) && Runs(s, acts)
    ensures Valid(After(s, acts))
    decreases |acts|
  {
    if acts != [] {
      StepValid(s, acts[0]);
      RunIsValid(Do(s, acts[0]), acts[1..]);
    }
  }

  // In every interleaving each finalizer runs at most once, and has been
  // claimed by the time its guard's destructor returns
  lemma AtMostOnce(acts: seq<Action>)
    requires Runs(START, acts)
    ensures var s := After(START, acts);
      && (forall i, j :: 0 <= i < j < |s.runs| ==> s.runs[i] != s.runs[j])
      && (forall id :: 0 <= id < |s.guards| && s.guards[id].Gone? ==> id in s.runs)
  {
    RunIsValid(START, acts);
  }

  // Nothing is left to do: the list and all drains are empty and no destructor is under way
  ghost predicate Settled(s: State) {
    && s.callbacks == []
    && (forall d :: 0 <= d < |s.drains| ==> s.drains[d] == [])
    && (forall id :: 0 <= id < |s.guards| ==> !s.guards[id].Unlinked?)
  }

  function Ids(runs: seq<nat>): (r: set<nat>) {
    set id | id in runs
  }

  lemma {:induction false} DistinctCount(runs: seq<nat>)
    requires forall i, j :: 0 <= i < j < |runs| ==> runs[i] != runs[j]
    ensures |Ids(runs)| == |runs|
  {
    if runs != [] {
      var init, last := runs[..|runs| - 1], runs[|runs| - 1];
      DistinctCount(init);
      assert Ids(runs) == Ids(init) + {last};
    }
  }

  function UpTo(n: nat): (r: set<nat>)
    ensures |r| == n && forall id :: id in r <==> 0 <= id < n
  {
    if n == 0 then {} else UpTo(n - 1) + {n - 1}
  }

  lemma AllIdsOnce(runs: seq<nat>, n: nat)
    requires forall i, j :: 0 <= i < j < |runs| ==> runs[i] != runs[j]
    requires forall id :: id in runs <==> 0 <= id < n
    ensures |runs| == n
  {
    assert Ids(runs) == UpTo(n);
    DistinctCount(runs);
  }

  // Then every registered finalizer has run exactly once
  lemma ExactlyOnce(acts: seq<Action>)
    requires Runs(START, acts) && Settled(After(START, acts))
    ensures var s := After(START, acts);
      && (forall id :: id in s.runs <==> 0 <= id < |s.guards|)
      && |s.runs| == |s.guards|
  {
    RunIsValid(START, acts);
    var s := After(START, acts);
    forall id | 0 <= id < |s.guards| ensures id in s.runs {
      assert Remembered(s, id);
    }
    AllIdsOnce(s.runs, |s.guards|);
  }
}
