/**
 The ring of postponed operations over whole runs: which operations it takes
 depends only on how often operations were postponed and taken before, it gives
 them back in the order in which it took them, and it skips one exactly when it
 is full.
 */
module Ring {
  import opened Groups
  import opened Tallies
  import opened Accounting
  import opened AccountingRuns

  // How full a ring of the given capacity is after an action
  function Level(n: nat, capacity: nat, a: Action): (r: nat) {
    if a.Postpone? && n < capacity then n + 1
    else if a.InnerPop? && n > 0 then n - 1
    else n
  }

  // The operations that a ring of the given capacity has no room for, when it holds n at first
  function Refused(n: nat, capacity: nat, acts: seq<Action>): (r: seq<Op>)
    decreases |acts|
  {
    if acts == [] then []
    else
      (if acts[0].Postpone? && n >= capacity then [acts[0].op] else [])
      + Refused(Level(n, capacity, acts[0]), capacity, acts[1..])
  }

  // And those that it takes
  function Taken(n: nat, capacity: nat, acts: seq<Action>): (r: seq<Op>)
    decreases |acts|
  {
    if acts == [] then []
    else
      (if acts[0].Postpone? && n < capacity then [acts[0].op] else [])
      + Taken(Level(n, capacity, acts[0]), capacity, acts[1..])
  }

  // The operations that threads take out of the ring to apply them
  ghost function Popped<T>(g: Group<T>, c: Costs<T>, s: State<T>, acts: seq<Action>): (r: seq<Op>)
    requires Runs(g, c, s, acts)
    decreases |acts|
  {
    if acts == [] then []
    else
      var a, next := acts[0], Do(g, c, s, acts[0]);
      (if a.InnerPop? then [next.threads[a.thread].inner.op] else []) + Popped(g, c, next, acts[1..])
  }

  function PostponeCount(acts: seq<Action>): (r: nat) {
    if acts == [] then 0 else (if acts[0].Postpone? then 1 else 0) + PostponeCount(acts[1..])
  }

  // There is room for each operation when it is postponed
  predicate Fits(n: nat, capacity: nat, acts: seq<Action>)
    decreases |acts|
  {
    acts == []
    || ((acts[0].Postpone? ==> n < capacity) && Fits(Level(n, capacity, acts[0]), capacity, acts[1..]))
  }

  lemma RingStep<T(!new)>(g: Group<T>, c: Costs<T>, s: State<T>, a: Action)
    requires Enabled(s, a)
    ensures var next := Do(g, c, s, a);
      && next.capacity == s.capacity && |next.postponed| == Level(|s.postponed|, s.capacity, a)
      && next.skipped == s.skipped + (if a.Postpone? && |s.postponed| >= s.capacity then [a.op] else [])
      && s.postponed + (if a.Postpone? && |s.postponed| < s.capacity then [a.op] else [])
         == (if a.InnerPop? then [next.threads[a.thread].inner.op] else []) + next.postponed
  {
  }

  lemma Chain(a: seq<Op>, b: seq<Op>, c: seq<Op>)
    ensures a + b + c == a + (b + c)
  {
  }

  // The skipped operations are those postponed while the ring was full
  lemma {:induction false} SkippedIsRefused<T(!new)>(g: Group<T>, c: Costs<T>, s: State<T>, acts: seq<Action>)
    requires Runs(g, c, s, acts)
    ensures After(g, c, s, acts).skipped == s.skipped + Refused(|s.postponed|, s.capacity, acts)
    decreases |acts|
  {
    if acts != [] {
      var a, next := acts[0], Do(g, c, s, acts[0]);
      RingStep(g, c, s, a);
      SkippedIsRefused(g, c, next, acts[1..]);
      Chain(s.skipped, if a.Postpone? && |s.postponed| >= s.capacity then [a.op] else [],
            Refused(|next.postponed|, s.capacity, acts[1..]));
    }
  }

  // First in, first out: what the ring held and took is what was taken out of it and what it holds, in order
  lemma {:induction false} FirstInFirstOut<T(!new)>(g: Group<T>, c: Costs<T>, s: State<T>, acts: seq<Action>)
    requires Runs(g, c, s, acts)
    ensures s.postponed + Taken(|s.postponed|, s.capacity, acts)
      == Popped(g, c, s, acts) + After(g, c, s, acts).postponed
    decreases |acts|
  {
    if acts != [] {
      var a, next := acts[0], Do(g, c, s, acts[0]);
      var more := if a.Postpone? && |s.postponed| < s.capacity then [a.op] else [];
      var gone := if a.InnerPop? then [next.threads[a.thread].inner.op] else [];
      RingStep(g, c, s, a);
      FirstInFirstOut(g, c, next, acts[1..]);
      Chain(s.postponed, more, Taken(|next.postponed|, s.capacity, acts[1..]));
      Chain(gone, next.postponed, Taken(|next.postponed|, s.capacity, acts[1..]));
      Chain(gone, Popped(g, c, next, acts[1..]), After(g, c, s, acts).postponed);
    }
  }

  // Every postponed operation is taken or refused
  lemma {:induction false} TakenOrRefused(n: nat, capacity: nat, acts: seq<Action>)
    ensures |Taken(n, capacity, acts)| + |Refused(n, capacity, acts)| == PostponeCount(acts)
    ensures Refused(n, capacity, acts) == [] <==> Fits(n, capacity, acts)
    decreases |acts|
  {
    if acts != [] {
      TakenOrRefused(Level(n, capacity, acts[0]), capacity, acts[1..]);
    }
  }

  // As many operations as there is room for always fit
  lemma {:induction false} FewFit(n: nat, capacity: nat, acts: seq<Action>)
    requires n + PostponeCount(acts) <= capacity
    ensures Fits(n, capacity, acts)
    decreases |acts|
  {
    if acts != [] {
      FewFit(Level(n, capacity, acts[0]), capacity, acts[1..]);
    }
  }

  // Nothing is skipped if and only if there is room for each operation when it is postponed
  lemma NoneSkippedIff<T(!new)>(g: Group<T>, c: Costs<T>, capacity: nat, acts: seq<Action>)
    requires Runs(g, c, Start(g, capacity), acts)
    ensures After(g, c, Start(g, capacity), acts).skipped == [] <==> Fits(0, capacity, acts)
    ensures PostponeCount(acts) <= capacity ==> Fits(0, capacity, acts)
  {
    SkippedIsRefused(g, c, Start(g, capacity), acts);
    TakenOrRefused(0, capacity, acts);
    if PostponeCount(acts) <= capacity {
      FewFit(0, capacity, acts);
    }
  }

  // Then, once everything has been drained, the written tally is the history
  lemma WrittenIsHistory<T(!new)>(g: Group<T>, c: Costs<T>, capacity: nat, acts: seq<Action>, t: nat)
    requires Lawful(g) && Runs(g, c, Start(g, capacity), acts) && Fits(0, capacity, acts)
    requires Drained(After(g, c, Start(g, capacity), acts))
    ensures Get(g, After(g, c, Start(g, capacity), acts).written.summaries, t)
      == Sum(g, OpTerms(g, c, History(acts), t))
  {
    NoneSkippedIff(g, c, capacity, acts);
    DrainedIsWritten(g, c, capacity, acts, t);
    Zero(g, Get(g, After(g, c, Start(g, capacity), acts).written.summaries, t));
  }
}
