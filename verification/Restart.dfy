/**
 Stopping the symbolizer, saving its state, restoring it and reading the file
 again from its start. `step` is any relation that says what processing one
 snapshot may do to the rest of the state, so that the nondeterminism of hash
 map iteration is covered; the gate on timestamps is explicit.
 */
module Restart {
  // A processor state and its last processed timestamp
  datatype Gated<S> = Gated(state: S, lastTimestamp: nat)

  type Step<!S(!new), !M(!new)> = (S, M, S) -> bool

  ghost predicate Gate<S(!new), M(!new)>(step: Step<S, M>, ts: M -> nat, a: Gated<S>, m: M, b: Gated<S>) {
    if ts(m) <= a.lastTimestamp then b == a
    else step(a.state, m, b.state) && b.lastTimestamp == ts(m)
  }

  // Reading the file from state a may end in state b
  ghost predicate Reads<S(!new), M(!new)>(step: Step<S, M>, ts: M -> nat, a: Gated<S>, file: seq<M>, b: Gated<S>)
    decreases |file|
  {
    if file == [] then a == b
    else exists c :: Gate(step, ts, a, file[0], c) && Reads(step, ts, c, file[1..], b)
  }

  lemma {:induction false} ReadsInTwoParts<S(!new), M(!new)>(step: Step<S, M>, ts: M -> nat, a: Gated<S>, x: seq<M>,
                                                             y: seq<M>, b: Gated<S>)
    ensures Reads(step, ts, a, x + y, b) <==> exists c :: Reads(step, ts, a, x, c) && Reads(step, ts, c, y, b)
    decreases |x|
  {
    if x == [] {
      assert x + y == y;
      assert Reads(step, ts, a, x, a);
    } else {
      assert (x + y)[0] == x[0] && (x + y)[1..] == x[1..] + y;
      if Reads(step, ts, a, x + y, b) {
        var d :| Gate(step, ts, a, x[0], d) && Reads(step, ts, d, x[1..] + y, b);
        ReadsInTwoParts(step, ts, d, x[1..], y, b);
        var c :| Reads(step, ts, d, x[1..], c) && Reads(step, ts, c, y, b);
        assert Reads(step, ts, a, x, c);
      }
      forall c | Reads(step, ts, a, x, c) && Reads(step, ts, c, y, b) ensures Reads(step, ts, a, x + y, b) {
        var d :| Gate(step, ts, a, x[0], d) && Reads(step, ts, d, x[1..], c);
        var rest := x[1..];
        assert Reads(step, ts, d, rest, c) && Reads(step, ts, c, y, b);
        ReadsInTwoParts(step, ts, d, rest, y, b);
      }
    }
  }

  // The last timestamp ends as the largest of where it started and those of the snapshots read
  lemma {:induction false} ReadsReachMaximum<S(!new), M(!new)>(step: Step<S, M>, ts: M -> nat, a: Gated<S>,
                                                               file: seq<M>, b: Gated<S>)
    requires Reads(step, ts, a, file, b)
    ensures a.lastTimestamp <= b.lastTimestamp
    ensures forall m :: m in file ==> ts(m) <= b.lastTimestamp
    ensures b.lastTimestamp == a.lastTimestamp || exists m :: m in file && ts(m) == b.lastTimestamp
    decreases |file|
  {
    if file != [] {
      var c :| Gate(step, ts, a, file[0], c) && Reads(step, ts, c, file[1..], b);
      ReadsReachMaximum(step, ts, c, file[1..], b);
      if b.lastTimestamp == c.lastTimestamp {
        assert file[0] in file;
      } else {
        var m :| m in file[1..] && ts(m) == b.lastTimestamp;
        assert m in file;
      }
      forall m | m in file ensures ts(m) <= b.lastTimestamp {
        if m != file[0] {
          assert m in file[1..];
        }
      }
    }
  }

  // If processing is deterministic, so is reading
  lemma {:induction false} SameReading<S(!new), M(!new)>(step: Step<S, M>, ts: M -> nat, a: Gated<S>, file: seq<M>,
                                                         b: Gated<S>, c: Gated<S>)
    requires forall x, m, y, z :: step(x, m, y) && step(x, m, z) ==> y == z
    requires Reads(step, ts, a, file, b) && Reads(step, ts, a, file, c)
    ensures b == c
    decreases |file|
  {
    if file != [] {
      var b' :| Gate(step, ts, a, file[0], b') && Reads(step, ts, b', file[1..], b);
      var c' :| Gate(step, ts, a, file[0], c') && Reads(step, ts, c', file[1..], c);
      assert b' == c';
      SameReading(step, ts, b', file[1..], b, c);
    }
  }

  // Snapshots that are not newer have no effect
  lemma {:induction false} OldSnapshotsAreSkipped<S(!new), M(!new)>(step: Step<S, M>, ts: M -> nat, a: Gated<S>,
                                                                    file: seq<M>, b: Gated<S>)
    requires forall m :: m in file ==> ts(m) <= a.lastTimestamp
    ensures Reads(step, ts, a, file, b) <==> a == b
    decreases |file|
  {
    if file != [] {
      assert file[0] in file;
      assert Gate(step, ts, a, file[0], a);
      OldSnapshotsAreSkipped(step, ts, a, file[1..], b);
    }
  }

  lemma RereadSkips<S(!new), M(!new)>(step: Step<S, M>, ts: M -> nat, start: Gated<S>, x: seq<M>, y: seq<M>,
                                      saved: Gated<S>, end: Gated<S>)
    requires Reads(step, ts, start, x, saved)
    ensures Reads(step, ts, saved, x + y, end) <==> Reads(step, ts, saved, y, end)
  {
    ReadsReachMaximum(step, ts, start, x, saved);
    ReadsInTwoParts(step, ts, saved, x, y, end);
    forall c ensures Reads(step, ts, saved, x, c) <==> saved == c {
      OldSnapshotsAreSkipped(step, ts, saved, x, c);
    }
  }

  // Restarting after `x` and reading the grown file `x + y` from its start
  // leads exactly where reading `x + y` in one go leads
  lemma RestartIsTransparent<S(!new), M(!new)>(step: Step<S, M>, ts: M -> nat, start: Gated<S>, x: seq<M>, y: seq<M>,
                                               end: Gated<S>)
    ensures Reads(step, ts, start, x + y, end)
      <==> exists saved :: Reads(step, ts, start, x, saved) && Reads(step, ts, saved, x + y, end)
  {
    ReadsInTwoParts(step, ts, start, x, y, end);
    forall saved | Reads(step, ts, start, x, saved)
      ensures Reads(step, ts, saved, x + y, end) <==> Reads(step, ts, saved, y, end)
    {
      RereadSkips(step, ts, start, x, y, saved, end);
    }
  }

  lemma RestartLeadsOn<S(!new), M(!new)>(step: Step<S, M>, ts: M -> nat, start: Gated<S>, x: seq<M>, y: seq<M>,
                                         saved: Gated<S>, end: Gated<S>)
    requires Reads(step, ts, start, x, saved) && Reads(step, ts, saved, x + y, end)
    ensures Reads(step, ts, start, x + y, end)
  {
    var file := x + y;
    RereadSkips(step, ts, start, x, y, saved, end);
    ReadsInTwoParts(step, ts, start, x, y, end);
    assert Reads(step, ts, start, x, saved) && Reads(step, ts, saved, y, end);
    assert Reads(step, ts, start, file, end);
  }
}
