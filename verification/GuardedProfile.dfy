/**
 Guarded runs to the end. Trackers are given back by finalizers, which drains
 may run on other threads; even so the places hold exactly the operations
 submitted, and the reader's root total follows.
 */
module GuardedProfile {
  import opened Groups
  import opened Tallies
  import opened Reclaim
  import opened ReclaimTheorems
  import opened Conservation
  import opened Writer
  import opened Reader
  import opened Session
  import A = Accounting
  import CallTree
  import E = EndToEnd
  import R = AccountingRuns

  // ----- what was submitted

  function Submits(x: Action): (r: seq<A.Op>) {
    if x.Account? then R.Submits(x.act) else []
  }

  function Submitted(acts: seq<Action>): (r: seq<A.Op>) {
    if acts == [] then [] else Submits(acts[0]) + Submitted(acts[1..])
  }

  lemma LedgerStep<T(!new)>(g: Group<T>, c: A.Costs<T>, j: Joint<T>, x: Action, t: nat)
    requires Lawful(g) && Enabled(j, x)
    ensures Get(g, Do(g, c, j, x).acc.ledger.summaries, t)
      == g.add(Get(g, j.acc.ledger.summaries, t), Sum(g, A.OpTerms(g, c, Submits(x), t)))
  {
    if x.Account? {
      R.LedgerStep(g, c, j.acc, x.act, t);
    } else {
      Zero(g, Get(g, j.acc.ledger.summaries, t));
    }
  }

  lemma {:induction false} LedgerIsSubmitted<T(!new)>(g: Group<T>, c: A.Costs<T>, j: Joint<T>, acts: seq<Action>,
                                                      t: nat)
    requires Lawful(g) && Runs(g, c, j, acts)
    ensures Get(g, After(g, c, j, acts).acc.ledger.summaries, t)
      == g.add(Get(g, j.acc.ledger.summaries, t), Sum(g, A.OpTerms(g, c, Submitted(acts), t)))
    decreases |acts|
  {
    var x := Get(g, j.acc.ledger.summaries, t);
    if acts == [] {
      Zero(g, x);
    } else {
      var rest := acts[1..];
      LedgerStep(g, c, j, acts[0], t);
      LedgerIsSubmitted(g, c, Do(g, c, j, acts[0]), rest, t);
      R.OpsJoin(g, c, Submits(acts[0]), Submitted(rest), t);
      Assoc(g, x, Sum(g, A.OpTerms(g, c, Submits(acts[0]), t)), Sum(g, A.OpTerms(g, c, Submitted(rest), t)));
    }
  }

  // In every guarded run, drains included, the places together hold for every trace what was submitted
  lemma NothingIsLostGuarded<T(!new)>(g: Group<T>, c: A.Costs<T>, capacity: nat, acts: seq<Action>)
    requires Lawful(g) && Runs(g, c, Start(g, capacity), acts)
    ensures var s := After(g, c, Start(g, capacity), acts).acc;
      HoldsAll(g, c, s, Submitted(acts)) && Books(g, c, s)
  {
    var s := After(g, c, Start(g, capacity), acts).acc;
    R.StartIsValid(g, c, capacity);
    GuardedRunConserves(g, c, Start(g, capacity), acts);
    forall t: nat ensures Sum(g, A.Parts(g, c, s, t)) == Sum(g, A.OpTerms(g, c, Submitted(acts), t)) {
      assert A.ConservedAt(g, c, s, t);
      LedgerIsSubmitted(g, c, Start(g, capacity), acts, t);
      Zero(g, Sum(g, A.OpTerms(g, c, Submitted(acts), t)));
    }
  }

  // ----- the worker's events

  const ACCOUNTING := Action.Account(A.DrainAccount)
  const ROUND_END := Action.Account(A.DrainEnd)

  // What a step does to the writer
  function Emit<T>(s: A.State<T>, x: Action, clock: E.Clock, k: nat, lookups: E.Lookups): (r: seq<Event<T>>) {
    if x == ACCOUNTING then [Event.Account(s.worker.hand.summaries, s.worker.hand.total)]
    else if x == ROUND_END then [Flush(clock(k), lookups(k))]
    else []
  }

  function Next(x: Action, k: nat): (r: nat) {
    if x == ROUND_END then k + 1 else k
  }

  function Emitted<T>(g: Group<T>, c: A.Costs<T>, j: Joint<T>, acts: seq<Action>, clock: E.Clock, k: nat,
                      lookups: E.Lookups): (r: seq<Event<T>>)
    requires Runs(g, c, j, acts)
    decreases |acts|
  {
    if acts == [] then []
    else
      Emit(j.acc, acts[0], clock, k, lookups)
      + Emitted(g, c, Do(g, c, j, acts[0]), acts[1..], clock, Next(acts[0], k), lookups)
  }

  // The written total at the end of each round
  function WrittenTotals<T>(g: Group<T>, c: A.Costs<T>, j: Joint<T>, acts: seq<Action>): (r: seq<T>)
    requires Runs(g, c, j, acts)
    decreases |acts|
  {
    if acts == [] then []
    else
      (if acts[0] == ROUND_END then [j.acc.written.total] else [])
      + WrittenTotals(g, c, Do(g, c, j, acts[0]), acts[1..])
  }

  ghost predicate Kept<T(!new)>(g: Group<T>, c: A.Costs<T>, s: A.State<T>) {
    Books(g, c, s) && E.IdsOk(s)
  }

  lemma StepKeeps<T(!new)>(g: Group<T>, c: A.Costs<T>, j: Joint<T>, x: Action)
    requires Lawful(g) && Kept(g, c, j.acc) && Enabled(j, x)
    ensures Kept(g, c, Do(g, c, j, x).acc)
  {
    StepKeepsBooks(g, c, j, x);
    if x.Account? {
      E.StepIds(g, c, j.acc, x.act);
    } else if x.Register? {
      E.StepIds(g, c, j.acc, A.Register(x.thread));
    }
  }

  // Only accounting a drained tracker changes what is written
  lemma StepWrites<T(!new)>(g: Group<T>, c: A.Costs<T>, j: Joint<T>, x: Action, t: nat)
    requires Lawful(g) && Enabled(j, x)
    ensures var before, after, hand := j.acc.written, Do(g, c, j, x).acc.written, j.acc.worker.hand;
      if x == ACCOUNTING then
        && after.total == g.add(before.total, hand.total)
        && Get(g, after.summaries, t) == g.add(Get(g, before.summaries, t), Get(g, hand.summaries, t))
      else after == before
  {
    if x == ACCOUNTING {
      A.MergeAdds(g, j.acc.written.summaries, j.acc.worker.hand.summaries);
    }
  }

  lemma {:induction false} EmittedIsProper<T(!new)>(g: Group<T>, c: A.Costs<T>, j: Joint<T>, acts: seq<Action>,
                                                    clock: E.Clock, k: nat, lookups: E.Lookups, now: nat)
    requires Lawful(g) && Kept(g, c, j.acc) && Runs(g, c, j, acts) && E.Ticking(clock) && now < clock(k)
    ensures Proper(g, Emitted(g, c, j, acts, clock, k, lookups), now)
    ensures RunningTotals(g, Emitted(g, c, j, acts, clock, k, lookups), j.acc.written.total)
      == WrittenTotals(g, c, j, acts)
    decreases |acts|
  {
    if acts != [] {
      var x, next := acts[0], Do(g, c, j, acts[0]);
      var rest := Emitted(g, c, next, acts[1..], clock, Next(x, k), lookups);
      StepKeeps(g, c, j, x);
      StepWrites(g, c, j, x, 0);
      if x == ROUND_END {
        assert clock(k) < clock(k + 1);
        EmittedIsProper(g, c, next, acts[1..], clock, k + 1, lookups, clock(k));
        E.FlushFirst(g, clock(k), lookups(k), rest, now, j.acc.written.total);
      } else {
        EmittedIsProper(g, c, next, acts[1..], clock, k, lookups, now);
        if x == ACCOUNTING {
          var hand := j.acc.worker.hand;
          E.AccountFirst(g, hand.summaries, hand.total, rest, now, j.acc.written.total);
        } else {
          assert [] + rest == rest;
        }
      }
    }
  }

  lemma {:induction false} EmittedAccrues<T(!new)>(g: Group<T>, c: A.Costs<T>, j: Joint<T>, acts: seq<Action>,
                                                   clock: E.Clock, k: nat, lookups: E.Lookups, t: nat)
    requires Lawful(g) && Runs(g, c, j, acts)
    ensures Accrued(g, Emitted(g, c, j, acts, clock, k, lookups), t, Get(g, j.acc.written.summaries, t))
      == Get(g, After(g, c, j, acts).acc.written.summaries, t)
    ensures AccruedTotal(g, Emitted(g, c, j, acts, clock, k, lookups), j.acc.written.total)
      == After(g, c, j, acts).acc.written.total
    decreases |acts|
  {
    if acts != [] {
      var x, next := acts[0], Do(g, c, j, acts[0]);
      var rest := Emitted(g, c, next, acts[1..], clock, Next(x, k), lookups);
      EmittedAccrues(g, c, next, acts[1..], clock, Next(x, k), lookups, t);
      StepWrites(g, c, j, x, t);
      var emit := Emit(j.acc, x, clock, k, lookups);
      if emit == [] {
        assert emit + rest == rest;
      } else {
        assert emit == [emit[0]];
        E.AccruedFirst(g, emit[0], rest, t, Get(g, j.acc.written.summaries, t), j.acc.written.total);
      }
    }
  }

  // The run ends with a finished round of draining
  predicate Rested(acts: seq<Action>) {
    acts == [] || acts[|acts| - 1] == ROUND_END
  }

  lemma {:induction false} EmittedEnds<T(!new)>(g: Group<T>, c: A.Costs<T>, j: Joint<T>, acts: seq<Action>,
                                                clock: E.Clock, k: nat, lookups: E.Lookups)
    requires Runs(g, c, j, acts) && Rested(acts) && acts != []
    ensures EndsFlushed(Emitted(g, c, j, acts, clock, k, lookups))
    decreases |acts|
  {
    if |acts| > 1 {
      EmittedEnds(g, c, Do(g, c, j, acts[0]), acts[1..], clock, Next(acts[0], k), lookups);
    }
  }

  // ----- whole runs

  function AllEvents<T>(g: Group<T>, c: A.Costs<T>, capacity: nat, acts: seq<Action>, clock: E.Clock,
                        lookups: E.Lookups): (r: seq<Event<T>>)
    requires Runs(g, c, Start(g, capacity), acts)
  {
    E.Opening(g, clock, lookups) + Emitted(g, c, Start(g, capacity), acts, clock, 1, lookups)
  }

  lemma AllEventsAreProper<T(!new)>(g: Group<T>, c: A.Costs<T>, capacity: nat, acts: seq<Action>, clock: E.Clock,
                                    lookups: E.Lookups)
    requires Lawful(g) && Runs(g, c, Start(g, capacity), acts) && E.Ticking(clock)
    ensures var j, events := Start(g, capacity), AllEvents(g, c, capacity, acts, clock, lookups);
      && Proper(g, events, 0) && (Rested(acts) ==> EndsFlushed(events))
      && RunningTotals(g, events, g.zero) == [g.zero] + WrittenTotals(g, c, j, acts)
      && AccruedTotal(g, events, g.zero) == After(g, c, j, acts).acc.written.total
      && forall t :: Accrued(g, events, t, g.zero) == Get(g, After(g, c, j, acts).acc.written.summaries, t)
  {
    var j, events := Start(g, capacity), AllEvents(g, c, capacity, acts, clock, lookups);
    var rest := Emitted(g, c, j, acts, clock, 1, lookups);
    R.StartIsValid(g, c, capacity);
    assert clock(0) < clock(1);
    EmittedIsProper(g, c, j, acts, clock, 1, lookups, clock(0));
    if Rested(acts) && acts != [] {
      EmittedEnds(g, c, j, acts, clock, 1, lookups);
    }
    forall t ensures Accrued(g, events, t, g.zero) == Get(g, After(g, c, j, acts).acc.written.summaries, t) {
      E.OpeningIsEmpty(g, clock, lookups, rest, t);
      EmittedAccrues(g, c, j, acts, clock, 1, lookups, t);
    }
    E.OpeningIsEmpty(g, clock, lookups, rest, 0);
    EmittedAccrues(g, c, j, acts, clock, 1, lookups, 0);
  }

  // For every guarded run, drains included, the totals the reader sees are the totals written. When the last round is
  // finished, the root's total and what is still under way or skipped add up to the costs of everything submitted.
  method Profile<T(!new)>(g: Group<T>, c: A.Costs<T>, sym: nat -> seq<CallTree.Frame>, capacity: nat,
                          acts: seq<Action>, clock: E.Clock, lookups: E.Lookups, ghost find: E.Finder)
    returns (writer: ProtoWriter<T>, reader: Processor<T>, seen: seq<T>)
    requires Lawful(g) && Runs(g, c, Start(g, capacity), acts) && E.Ticking(clock)
    ensures seen == [g.zero] + WrittenTotals(g, c, Start(g, capacity), acts)
    ensures writer.g == g && reader.sym == sym && E.Follows(writer, reader, After(g, c, Start(g, capacity), acts).acc)
    ensures Agrees(AllEvents(g, c, capacity, acts, clock, lookups), find, {}, {}) ==>
      E.Profiled(writer, reader, After(g, c, Start(g, capacity), acts).acc, find)
    ensures Rested(acts) ==> writer.changed == {}
    ensures Rested(acts) ==>
      Sum(g, Balance(g, c, After(g, c, Start(g, capacity), acts).acc)[6 := reader.graph.nodes[0].agg.total])
      == Sum(g, OpCosts(g, c, Submitted(acts), Everything()))
  {
    AllEventsAreProper(g, c, capacity, acts, clock, lookups);
    var sent;
    writer, reader, sent, seen := Run(g, sym, AllEvents(g, c, capacity, acts, clock, lookups), find);
    NothingIsLostGuarded(g, c, capacity, acts);
    if Rested(acts) {
      E.RootHolds(writer, reader, c, After(g, c, Start(g, capacity), acts).acc, Submitted(acts));
    }
  }
}
