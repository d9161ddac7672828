/**
  The ids of the two trackers side by side. External traces get ids from the trie, the profiler's own traces get
  ids with the top bit set; the writer asks both trackers, and the reader tells them apart by their size.
*/
module TraceIds {

  import opened Options
  import opened Collapse
  import opened Interning
  import opened StaticTracker
  import opened SettledTrackers
  import Codec
  import N = Names
  import F = StaticStore
  import S = SavedIds
  import R = Reader

  /** How the reader classifies an id. */
  predicate Own(id: nat) {
    id >= R.MEMHAWK_TRACES
  }

  /** Every id of the fixed store, the unknown one included, has the top bit and counts as the profiler's own. */
  lemma StaticIdsAreOwn(traces: seq<seq<Codec.U64>>, trace: seq<Codec.U64>)
    requires F.Sound(traces)
    ensures F.FIXED_TRACKER_ID_FLAG <= F.Answer(traces, trace) < 2 * F.FIXED_TRACKER_ID_FLAG
    ensures Own(F.Answer(traces, trace))
  {
    assert F.Find(traces, F.Span(trace)) <= |traces| < F.ELEMENTS_COUNT;
  }

  // ----- the newest node of the trie

  lemma {:induction false} GrownNames(names: seq<N.Name>, name: N.Name, other: N.Name)
    requires other in N.Grow(names, name)
    ensures other in names || |other| <= |name|
    decreases |name|
  {
    if name != [] && other != name {
      GrownNames(names, name[..|name| - 1], other);
    }
  }

  /** Interning adds nothing, or adds the whole name last. */
  lemma NewestName(names: seq<N.Name>, name: N.Name)
    requires N.Tree(names)
    ensures var more := N.Grow(names, name); more == names || more[|more| - 1] == name
  {
    if name in names {
      N.GrowAgain(names, name);
    } else if name != [] {
      var outer := N.Grow(names, name[..|name| - 1]);
      if name in outer {
        GrownNames(names, name[..|name| - 1], name);
        assert false;
      }
    }
  }

  /** The number of the newest node was handed out. */
  lemma {:induction false} NewestIsAnId(traces: seq<seq<Frame>>) returns (i: nat)
    requires |N.After(traces)| > 1
    ensures i < |traces| && N.IdOf(traces, i) == |N.After(traces)| - 1
    decreases |traces|
  {
    var n := |traces| - 1;
    var before, last := traces[..n], traces[n];
    N.AfterIsTree(before);
    N.AfterIsTree(traces);
    NewestName(N.After(before), N.Outward(last));
    if N.After(traces) == N.After(before) {
      i := NewestIsAnId(before);
      assert before[..i + 1] == traces[..i + 1];
    } else {
      i := n;
      N.IdIsStable(traces, n);
    }
  }

  /** In every run, all external ids count as external exactly as long as the trie has fewer than 2^31 nodes. */
  lemma ExternalIff(traces: seq<seq<Frame>>)
    ensures (forall i :: 0 <= i < |traces| ==> !Own(N.IdOf(traces, i))) <==> |N.After(traces)| <= R.MEMHAWK_TRACES
  {
    if |N.After(traces)| <= R.MEMHAWK_TRACES {
      forall i | 0 <= i < |traces| ensures !Own(N.IdOf(traces, i)) {
        N.IdIsStable(traces, i);
      }
    } else {
      var i := NewestIsAnId(traces);
      assert Own(N.IdOf(traces, i));
    }
  }

  // ----- a run that goes beyond

  /** Traces of one frame each, all different. */
  function Singles(n: nat): (r: seq<seq<Frame>>)
    ensures |r| == n
  {
    if n == 0 then [] else Singles(n - 1) + [[n]]
  }

  /** The names that they leave. */
  function SingleNames(n: nat): (r: seq<N.Name>)
    ensures |r| == n + 1
  {
    if n == 0 then [[]] else SingleNames(n - 1) + [[n]]
  }

  lemma {:induction false} NotYet(n: nat, m: nat)
    requires m > n
    ensures [m] !in SingleNames(n)
  {
    if n > 0 {
      NotYet(n - 1, m);
      assert [m][0] != [n][0];
    }
  }

  lemma SingleName(n: nat)
    requires n > 0
    ensures N.Outward([n]) == [n]
  {
    assert [n][1..] == [];
    assert N.Outward([n][1..]) == [];
  }

  lemma {:induction false} SinglesFill(n: nat)
    ensures N.After(Singles(n)) == SingleNames(n)
  {
    if n > 0 {
      SinglesFill(n - 1);
      SingleName(n);
      assert Singles(n)[..n - 1] == Singles(n - 1) && Singles(n)[n - 1] == [n];
      var before := SingleNames(n - 1);
      assert N.Grow(before, []) == before && [n][..0] == [];
      assert N.Grow(before, [n]) == N.Added(before, [n]);
      NotYet(n - 1, n);
    }
  }

  lemma TrieOfSize(n: nat) returns (traces: seq<seq<Frame>>)
    ensures |N.After(traces)| == n + 1
  {
    traces := Singles(n);
    SinglesFill(n);
  }

  /** There is a run in which an external trace gets the id 2^31 - 1 and is shown as one of the profiler's own. */
  lemma ExternalShownAsOwn(sym: nat -> seq<Frame>, addrs: seq<nat>) returns (traces: seq<seq<Frame>>, i: nat)
    ensures i < |traces| && N.IdOf(traces, i) == R.MEMHAWK_TRACES < F.FIXED_TRACKER_ID_FLAG
    ensures R.Localized(sym, N.IdOf(traces, i), addrs) == [R.MEMHAWK_FRAME] + R.Symbols(sym, addrs)
  {
    traces := TrieOfSize(R.MEMHAWK_TRACES);
    i := NewestIsAnId(traces);
  }

  // ----- looking up in both

  function Frames(words: seq<Codec.U64>): (r: seq<Frame>)
    ensures |r| == |words| && forall i :: 0 <= i < |r| ==> r[i] == words[i]
  {
    seq(|words|, i requires 0 <= i < |words| => words[i])
  }

  /** The trie first, then the fixed store. */
  ghost function Lookup(trie: Trie, store: Store, id: nat): (r: Option<seq<Frame>>) {
    if id < |trie.names| && id in trie.leafs then Some(N.Inward(trie.names[id]))
    else if F.Lookup(store, id).Some? then Some(Frames(F.Lookup(store, id).value))
    else None
  }

  method GetStacktraceFromId(trie: StacktraceTracker, fixed: StaticStacktraceTracker,
                             id: nat) returns (r: Option<seq<Frame>>)
    requires trie.Valid() && fixed.Valid()
    modifies fixed.decompressedTrace
    ensures fixed.Valid() && r == Lookup(Trie(trie.names, trie.leafs), fixed.traces, id)
  {
    r := trie.GetStacktraceFromId(id);
    if r.None? {
      var words := fixed.GetStacktraceFromId(id);
      r := if words.Some? then Some(Frames(words.value)) else None;
    }
  }

  /** An external id leads back to the frames of its trace, whatever the store holds. */
  lemma ExternalResolves(trie: Trie, ids: seq<nat>, traces: seq<seq<Frame>>, store: Store, i: nat)
    requires S.Interned(trie, ids, traces) && i < |traces|
    ensures ids[i] < |trie.names| && Lookup(trie, store, ids[i]) == Some(N.Filtered(traces[i]))
  {
    N.IdIsStable(traces, i);
    assert ids[i] == N.IdOf(traces, i);
  }

  /** An own id leads back to the first frames of its trace or to nothing. */
  lemma OwnResolves(trie: Trie, run: seq<seq<Codec.U64>>, j: nat)
    requires |trie.names| <= F.FIXED_TRACKER_ID_FLAG && j < |run|
    ensures F.IdOf(run, j) >= F.FIXED_TRACKER_ID_FLAG
    ensures Lookup(trie, F.After(run), F.IdOf(run, j))
      == if F.IdOf(run, j) == F.UNKNOWN_TRACE_ID then None else Some(Frames(F.Span(run[j])))
  {
    F.AfterIsSound(run[..j]);
    StaticIdsAreOwn(F.After(run[..j]), run[j]);
    F.LookupIsStable(run, j);
  }

  /**
    As long as the trie has at most 2^31 nodes, the two trackers share no id, and every id leads back to the trace it
    was given for: the i-th external one to its frames, the j-th own one to its first frames or to nothing.
  */
  lemma BothResolve(trie: Trie, ids: seq<nat>, traces: seq<seq<Frame>>, run: seq<seq<Codec.U64>>, i: nat, j: nat)
    requires S.Interned(trie, ids, traces) && |trie.names| <= F.FIXED_TRACKER_ID_FLAG && i < |traces| && j < |run|
    ensures ids[i] != F.IdOf(run, j)
    ensures Lookup(trie, F.After(run), ids[i]) == Some(N.Filtered(traces[i]))
    ensures Lookup(trie, F.After(run), F.IdOf(run, j))
      == if F.IdOf(run, j) == F.UNKNOWN_TRACE_ID then None else Some(Frames(F.Span(run[j])))
  {
    ExternalResolves(trie, ids, traces, F.After(run), i);
    OwnResolves(trie, run, j);
  }
}
