/**
 Conservation over any set of traces: what the trackers, hands, ring and writer
 hold of the chosen traces adds up to the costs of the submitted operations on
 them. For all traces together this is about the running totals.
 */
module Conservation {
  import opened Groups
  import opened Tallies
  import opened Accounting
  import opened AccountingRuns

  // ----- sums over traces

  // A value per trace, for the chosen traces
  ghost function Kept<T>(g: Group<T>, keep: nat -> bool, value: nat -> T): (r: seq<T>)
    ensures |r| == TRACE_IDS && forall t :: 0 <= t < TRACE_IDS ==> r[t] == if keep(t) then value(t) else g.zero
  {
    seq(TRACE_IDS, t requires 0 <= t < TRACE_IDS => if keep(t) then value(t) else g.zero)
  }

  ghost function ValuesAt<T>(values: seq<nat -> T>, t: nat): (r: seq<T>)
    ensures |r| == |values| && forall i :: 0 <= i < |values| ==> r[i] == values[i](t)
  {
    seq(|values|, i requires 0 <= i < |values| => values[i](t))
  }

  ghost function KeptSums<T>(g: Group<T>, keep: nat -> bool, values: seq<nat -> T>): (r: seq<T>)
    ensures |r| == |values| && forall i :: 0 <= i < |values| ==> r[i] == Sum(g, Kept(g, keep, values[i]))
  {
    seq(|values|, i requires 0 <= i < |values| => Sum(g, Kept(g, keep, values[i])))
  }

  lemma ValuesPush<T(!new)>(g: Group<T>, values: seq<nat -> T>, t: nat)
    requires values != []
    ensures Sum(g, ValuesAt(values, t)) == g.add(Sum(g, ValuesAt(values[..|values| - 1], t)), values[|values| - 1](t))
  {
    var n := |values| - 1;
    assert ValuesAt(values, t) == ValuesAt(values[..n], t) + [values[n](t)];
    SumPush(g, ValuesAt(values[..n], t), values[n](t));
  }

  lemma KeptPairs<T(!new)>(g: Group<T>, keep: nat -> bool, a: nat -> T, b: nat -> T, both: nat -> T)
    requires Lawful(g) && forall t: nat :: both(t) == g.add(a(t), b(t))
    ensures Sum(g, Kept(g, keep, both)) == g.add(Sum(g, Kept(g, keep, a)), Sum(g, Kept(g, keep, b)))
  {
    Zero(g, g.zero);
    SumPairs(g, Kept(g, keep, a), Kept(g, keep, b), Kept(g, keep, both));
  }

  lemma KeptSumsPush<T(!new)>(g: Group<T>, keep: nat -> bool, values: seq<nat -> T>)
    requires values != []
    ensures Sum(g, KeptSums(g, keep, values))
      == g.add(Sum(g, KeptSums(g, keep, values[..|values| - 1])), Sum(g, Kept(g, keep, values[|values| - 1])))
  {
    var n := |values| - 1;
    var init, last := KeptSums(g, keep, values[..n]), Sum(g, Kept(g, keep, values[n]));
    assert KeptSums(g, keep, values) == init + [last];
    SumPush(g, init, last);
  }

  // Summing over traces and summing over terms can be exchanged
  lemma {:induction false} SumsExchange<T(!new)>(g: Group<T>, keep: nat -> bool, value: nat -> T, values: seq<nat -> T>)
    requires Lawful(g) && forall t: nat :: value(t) == Sum(g, ValuesAt(values, t))
    ensures Sum(g, Kept(g, keep, value)) == Sum(g, KeptSums(g, keep, values))
    decreases |values|
  {
    if values == [] {
      SumZeros(g, Kept(g, keep, value));
    } else {
      var n := |values| - 1;
      var init, last := values[..n], values[n];
      var before := (t: nat) => Sum(g, ValuesAt(init, t));
      SumsExchange(g, keep, before, init);
      forall t: nat ensures value(t) == g.add(before(t), last(t)) {
        ValuesPush(g, values, t);
      }
      KeptPairs(g, keep, before, last, value);
      KeptSumsPush(g, keep, values);
    }
  }

  lemma SameValues<T(!new)>(g: Group<T>, keep: nat -> bool, a: nat -> T, b: nat -> T)
    requires forall t: nat :: t < TRACE_IDS && keep(t) ==> a(t) == b(t)
    ensures Sum(g, Kept(g, keep, a)) == Sum(g, Kept(g, keep, b))
  {
    assert Kept(g, keep, a) == Kept(g, keep, b);
  }

  // ----- tallies

  lemma TallyKept<T(!new)>(g: Group<T>, keep: nat -> bool, m: map<nat, T>)
    ensures Sum(g, Kept(g, keep, (t: nat) => Get(g, m, t))) == Total(g, Only(m, keep), TRACE_IDS)
  {
    assert Kept(g, keep, (t: nat) => Get(g, m, t)) == Column(g, Only(m, keep), TRACE_IDS);
  }

  ghost function TrackerTotals<T>(g: Group<T>, trackers: seq<Tracker<T>>, keep: nat -> bool): (r: seq<T>)
    ensures |r| == |trackers|
    ensures forall i :: 0 <= i < |trackers| ==> r[i] == Total(g, Only(trackers[i].summaries, keep), TRACE_IDS)
  {
    seq(|trackers|, i requires 0 <= i < |trackers| => Total(g, Only(trackers[i].summaries, keep), TRACE_IDS))
  }

  lemma TrackersKept<T(!new)>(g: Group<T>, keep: nat -> bool, trackers: seq<Tracker<T>>)
    requires Lawful(g)
    ensures Sum(g, Kept(g, keep, (t: nat) => Sum(g, TrackerTerms(g, trackers, t))))
      == Sum(g, TrackerTotals(g, trackers, keep))
  {
    var values := seq(|trackers|, i requires 0 <= i < |trackers| => (t: nat) => Get(g, trackers[i].summaries, t));
    var value := (t: nat) => Sum(g, TrackerTerms(g, trackers, t));
    forall t: nat ensures value(t) == Sum(g, ValuesAt(values, t)) {
      assert ValuesAt(values, t) == TrackerTerms(g, trackers, t);
    }
    SumsExchange(g, keep, value, values);
    forall i | 0 <= i < |trackers| ensures KeptSums(g, keep, values)[i] == TrackerTotals(g, trackers, keep)[i] {
      TallyKept(g, keep, trackers[i].summaries);
    }
    assert KeptSums(g, keep, values) == TrackerTotals(g, trackers, keep);
  }

  // ----- operations

  // What an operation contributes if its trace is chosen
  ghost function KeptCost<T>(g: Group<T>, c: Costs<T>, op: Op, keep: nat -> bool): (r: T) {
    if keep(op.info.traceId) then Cost(c, op) else g.zero
  }

  ghost function OpCosts<T>(g: Group<T>, c: Costs<T>, ops: seq<Op>, keep: nat -> bool): (r: seq<T>)
    ensures |r| == |ops| && forall i :: 0 <= i < |ops| ==> r[i] == KeptCost(g, c, ops[i], keep)
  {
    seq(|ops|, i requires 0 <= i < |ops| => KeptCost(g, c, ops[i], keep))
  }

  lemma OpKept<T(!new)>(g: Group<T>, c: Costs<T>, keep: nat -> bool, op: Op)
    requires Lawful(g)
    ensures Sum(g, Kept(g, keep, (t: nat) => OpTerm(g, c, op, t))) == KeptCost(g, c, op, keep)
  {
    SumOne(g, Kept(g, keep, (t: nat) => OpTerm(g, c, op, t)), op.info.traceId);
  }

  lemma OpsKept<T(!new)>(g: Group<T>, c: Costs<T>, keep: nat -> bool, ops: seq<Op>)
    requires Lawful(g)
    ensures Sum(g, Kept(g, keep, (t: nat) => Sum(g, OpTerms(g, c, ops, t)))) == Sum(g, OpCosts(g, c, ops, keep))
  {
    var values := seq(|ops|, i requires 0 <= i < |ops| => (t: nat) => OpTerm(g, c, ops[i], t));
    var value := (t: nat) => Sum(g, OpTerms(g, c, ops, t));
    forall t: nat ensures value(t) == Sum(g, ValuesAt(values, t)) {
      assert ValuesAt(values, t) == OpTerms(g, c, ops, t);
    }
    SumsExchange(g, keep, value, values);
    forall i | 0 <= i < |ops| ensures KeptSums(g, keep, values)[i] == OpCosts(g, c, ops, keep)[i] {
      OpKept(g, c, keep, ops[i]);
    }
    assert KeptSums(g, keep, values) == OpCosts(g, c, ops, keep);
  }

  // The postponed operations that threads are about to apply
  ghost function InFlight(threads: seq<Thread>): (r: seq<Op>) {
    if threads == [] then []
    else
      var th := threads[|threads| - 1];
      InFlight(threads[..|threads| - 1]) + if th.inner.Delayed? then [th.inner.op] else []
  }

  lemma {:induction false} InFlightTerms<T(!new)>(g: Group<T>, c: Costs<T>, threads: seq<Thread>, t: nat)
    requires Lawful(g)
    ensures Sum(g, ThreadTerms(g, c, threads, t)) == Sum(g, OpTerms(g, c, InFlight(threads), t))
    decreases |threads|
  {
    if threads != [] {
      var n := |threads| - 1;
      var init, th := threads[..n], threads[n];
      InFlightTerms(g, c, init, t);
      assert ThreadTerms(g, c, threads, t) == ThreadTerms(g, c, init, t) + [ThreadTerm(g, c, th, t)];
      SumPush(g, ThreadTerms(g, c, init, t), ThreadTerm(g, c, th, t));
      if th.inner.Delayed? {
        OpAppended(g, c, InFlight(init), th.inner.op, t);
      } else {
        assert InFlight(threads) == InFlight(init);
        Zero(g, Sum(g, ThreadTerms(g, c, init, t)));
      }
    }
  }

  // ----- where everything is, for the chosen traces

  ghost function Holdings<T>(g: Group<T>, c: Costs<T>, s: State<T>, keep: nat -> bool): (r: seq<T>)
    ensures |r| == 8
  {
    [ Sum(g, TrackerTotals(g, s.trackers, keep)),
      Total(g, Only(s.exiting.summaries, keep), TRACE_IDS),
      Total(g, Only(s.inner.summaries, keep), TRACE_IDS),
      Sum(g, OpCosts(g, c, s.postponed, keep)),
      Sum(g, OpCosts(g, c, InFlight(s.threads), keep)),
      Total(g, Only(s.worker.hand.summaries, keep), TRACE_IDS),
      Total(g, Only(s.written.summaries, keep), TRACE_IDS),
      Sum(g, OpCosts(g, c, s.skipped, keep)) ]
  }

  ghost function Part<T>(g: Group<T>, c: Costs<T>, s: State<T>, k: nat): (r: nat -> T)
    requires k < 8
  {
    (t: nat) => Parts(g, c, s, t)[k]
  }

  ghost function PartsBySort<T>(g: Group<T>, c: Costs<T>, s: State<T>): (r: seq<nat -> T>)
    ensures |r| == 8 && forall k :: 0 <= k < 8 ==> r[k] == Part(g, c, s, k)
  {
    [Part(g, c, s, 0), Part(g, c, s, 1), Part(g, c, s, 2), Part(g, c, s, 3),
     Part(g, c, s, 4), Part(g, c, s, 5), Part(g, c, s, 6), Part(g, c, s, 7)]
  }

  lemma PartHeld<T(!new)>(g: Group<T>, c: Costs<T>, s: State<T>, keep: nat -> bool, k: nat)
    requires Lawful(g) && k < 8
    ensures Sum(g, Kept(g, keep, Part(g, c, s, k))) == Holdings(g, c, s, keep)[k]
  {
    var part := Part(g, c, s, k);
    if k == 0 {
      TrackersKept(g, keep, s.trackers);
      SameValues(g, keep, part, (t: nat) => Sum(g, TrackerTerms(g, s.trackers, t)));
    } else if k == 3 || k == 4 || k == 7 {
      var ops := if k == 3 then s.postponed else if k == 4 then InFlight(s.threads) else s.skipped;
      OpsKept(g, c, keep, ops);
      forall t: nat ensures part(t) == Sum(g, OpTerms(g, c, ops, t)) {
        InFlightTerms(g, c, s.threads, t);
      }
      SameValues(g, keep, part, (t: nat) => Sum(g, OpTerms(g, c, ops, t)));
    } else {
      var tr := if k == 1 then s.exiting else if k == 2 then s.inner else if k == 5 then s.worker.hand else s.written;
      TallyKept(g, keep, tr.summaries);
      SameValues(g, keep, part, (t: nat) => Get(g, tr.summaries, t));
    }
  }

  // For every trace the places together hold what these operations cost
  ghost predicate HoldsAll<T>(g: Group<T>, c: Costs<T>, s: State<T>, ops: seq<Op>) {
    forall t: nat :: Sum(g, Parts(g, c, s, t)) == Sum(g, OpTerms(g, c, ops, t))
  }

  lemma HoldsAmong<T(!new)>(g: Group<T>, c: Costs<T>, s: State<T>, ops: seq<Op>, keep: nat -> bool)
    requires Lawful(g) && HoldsAll(g, c, s, ops)
    ensures Sum(g, Holdings(g, c, s, keep)) == Sum(g, OpCosts(g, c, ops, keep))
  {
    var value, values := (t: nat) => Sum(g, OpTerms(g, c, ops, t)), PartsBySort(g, c, s);
    forall t: nat ensures value(t) == Sum(g, ValuesAt(values, t)) {
      assert ValuesAt(values, t) == Parts(g, c, s, t);
    }
    SumsExchange(g, keep, value, values);
    forall k | 0 <= k < 8 ensures KeptSums(g, keep, values)[k] == Holdings(g, c, s, keep)[k] {
      PartHeld(g, c, s, keep, k);
    }
    assert KeptSums(g, keep, values) == Holdings(g, c, s, keep);
    OpsKept(g, c, keep, ops);
  }

  lemma RunHoldsAll<T(!new)>(g: Group<T>, c: Costs<T>, capacity: nat, acts: seq<Action>)
    requires Lawful(g) && Runs(g, c, Start(g, capacity), acts)
    ensures HoldsAll(g, c, After(g, c, Start(g, capacity), acts), History(acts))
  {
    var s := After(g, c, Start(g, capacity), acts);
    forall t: nat ensures Sum(g, Parts(g, c, s, t)) == Sum(g, OpTerms(g, c, History(acts), t)) {
      NothingIsLost(g, c, capacity, acts, t);
    }
  }

  // Under every interleaving and for every set of traces, the places together hold what was submitted on those traces
  lemma NothingIsLostAmong<T(!new)>(g: Group<T>, c: Costs<T>, capacity: nat, acts: seq<Action>, keep: nat -> bool)
    requires Lawful(g) && Runs(g, c, Start(g, capacity), acts)
    ensures Sum(g, Holdings(g, c, After(g, c, Start(g, capacity), acts), keep))
      == Sum(g, OpCosts(g, c, History(acts), keep))
  {
    RunHoldsAll(g, c, capacity, acts);
    HoldsAmong(g, c, After(g, c, Start(g, capacity), acts), History(acts), keep);
  }

  lemma DrainedHolds<T(!new)>(g: Group<T>, c: Costs<T>, s: State<T>, ops: seq<Op>, keep: nat -> bool)
    requires Lawful(g) && HoldsAll(g, c, s, ops) && Drained(s)
    ensures g.add(Total(g, Only(s.written.summaries, keep), TRACE_IDS), Sum(g, OpCosts(g, c, s.skipped, keep)))
      == Sum(g, OpCosts(g, c, ops, keep))
  {
    var all := (t: nat) => Sum(g, OpTerms(g, c, ops, t));
    var written, skipped := (t: nat) => Get(g, s.written.summaries, t), (t: nat) => Sum(g, OpTerms(g, c, s.skipped, t));
    forall t: nat ensures all(t) == g.add(written(t), skipped(t)) {
      DrainedParts(g, c, s, t);
      assert Sum(g, Parts(g, c, s, t)) == Sum(g, OpTerms(g, c, ops, t));
    }
    KeptPairs(g, keep, written, skipped, all);
    OpsKept(g, c, keep, ops);
    OpsKept(g, c, keep, s.skipped);
    TallyKept(g, keep, s.written.summaries);
  }

  // Once everything has been drained, what was written of the chosen traces is what was submitted
  // without what was skipped
  lemma DrainedAmong<T(!new)>(g: Group<T>, c: Costs<T>, capacity: nat, acts: seq<Action>, keep: nat -> bool)
    requires Lawful(g) && Runs(g, c, Start(g, capacity), acts)
    requires Drained(After(g, c, Start(g, capacity), acts))
    ensures var s := After(g, c, Start(g, capacity), acts);
      g.add(Total(g, Only(s.written.summaries, keep), TRACE_IDS), Sum(g, OpCosts(g, c, s.skipped, keep)))
      == Sum(g, OpCosts(g, c, History(acts), keep))
  {
    RunHoldsAll(g, c, capacity, acts);
    DrainedHolds(g, c, After(g, c, Start(g, capacity), acts), History(acts), keep);
  }

  // ----- all traces together

  ghost function Everything(): (keep: nat -> bool) {
    (t: nat) => true
  }

  // The running totals
  ghost function Balance<T>(g: Group<T>, c: Costs<T>, s: State<T>): (r: seq<T>)
    ensures |r| == 8
  {
    [ Sum(g, seq(|s.trackers|, i requires 0 <= i < |s.trackers| => s.trackers[i].total)),
      s.exiting.total,
      s.inner.total,
      Sum(g, OpCosts(g, c, s.postponed, Everything())),
      Sum(g, OpCosts(g, c, InFlight(s.threads), Everything())),
      s.worker.hand.total,
      s.written.total,
      Sum(g, OpCosts(g, c, s.skipped, Everything())) ]
  }

  lemma AllTotal<T(!new)>(g: Group<T>, tr: Tracker<T>)
    requires TotalOk(g, tr)
    ensures Total(g, Only(tr.summaries, Everything()), TRACE_IDS) == tr.total
  {
    assert Only(tr.summaries, Everything()) == tr.summaries;
  }

  lemma BalanceHolds<T(!new)>(g: Group<T>, c: Costs<T>, s: State<T>, ops: seq<Op>)
    requires Lawful(g) && HoldsAll(g, c, s, ops) && TotalsOk(g, s)
    ensures Sum(g, Balance(g, c, s)) == Sum(g, OpCosts(g, c, ops, Everything()))
  {
    HoldsAmong(g, c, s, ops, Everything());
    forall i | 0 <= i < |s.trackers| ensures TrackerTotals(g, s.trackers, Everything())[i] == s.trackers[i].total {
      AllTotal(g, s.trackers[i]);
    }
    assert TrackerTotals(g, s.trackers, Everything())
        == seq(|s.trackers|, i requires 0 <= i < |s.trackers| => s.trackers[i].total);
    AllTotal(g, s.exiting);
    AllTotal(g, s.inner);
    AllTotal(g, s.worker.hand);
    AllTotal(g, s.written);
    assert Holdings(g, c, s, Everything()) == Balance(g, c, s);
  }

  // Under every interleaving, the running totals add up to the costs of everything submitted
  lemma TotalsAreHistory<T(!new)>(g: Group<T>, c: Costs<T>, capacity: nat, acts: seq<Action>)
    requires Lawful(g) && Runs(g, c, Start(g, capacity), acts)
    ensures Sum(g, Balance(g, c, After(g, c, Start(g, capacity), acts)))
      == Sum(g, OpCosts(g, c, History(acts), Everything()))
  {
    StartIsValid(g, c, capacity);
    RunIsValid(g, c, Start(g, capacity), acts);
    RunHoldsAll(g, c, capacity, acts);
    BalanceHolds(g, c, After(g, c, Start(g, capacity), acts), History(acts));
  }
}
