/**
  The tracker for the profiler's own stack traces. It must not allocate, so it keeps compressed traces in
  arrays of fixed size and answers with one id for all traces that no longer fit.
*/
module StaticStore {

  import opened Options
  import opened Codec

  const MAX_STACKTRACE_LENGTH: nat := 6
  const ELEMENTS_COUNT: nat := 512
  const STORAGE_SIZE: nat := ELEMENTS_COUNT * MAX_STACKTRACE_LENGTH * 2

  const FIXED_TRACKER_ID_FLAG: nat := 0x8000_0000

  /** Exclusive or of a 32-bit id with the flag. */
  function FlipFlag(id: nat): (r: nat) {
    if id < FIXED_TRACKER_ID_FLAG then id + FIXED_TRACKER_ID_FLAG else id - FIXED_TRACKER_ID_FLAG
  }

  const UNKNOWN_TRACE_ID: nat := FlipFlag(ELEMENTS_COUNT + 1)

  /** The part of a trace that is kept. */
  function Span(trace: seq<U64>): (r: seq<U64>)
    ensures |r| == (if |trace| < MAX_STACKTRACE_LENGTH then |trace| else MAX_STACKTRACE_LENGTH) && r <= trace
  {
    if |trace| > MAX_STACKTRACE_LENGTH then trace[..MAX_STACKTRACE_LENGTH] else trace
  }

  /** The words that the traces occupy. */
  ghost function Used(traces: seq<seq<U64>>): (r: nat) {
    if traces == [] then 0 else Used(traces[..|traces| - 1]) + |Encoded(traces[|traces| - 1])|
  }

  ghost predicate Fits(traces: seq<seq<U64>>, span: seq<U64>) {
    Used(traces) + |Encoded(span)| < STORAGE_SIZE && |traces| + 1 < ELEMENTS_COUNT
  }

  function Find(traces: seq<seq<U64>>, span: seq<U64>): (i: nat)
    ensures i <= |traces| && (i < |traces| ==> traces[i] == span)
    ensures span !in traces ==> i == |traces|
    ensures span in traces ==> i < |traces|
  {
    if traces == [] then 0 else if traces[0] == span then 0 else 1 + Find(traces[1..], span)
  }

  /** The traces kept after an insertion. */
  ghost function Stored(traces: seq<seq<U64>>, trace: seq<U64>): (r: seq<seq<U64>>)
    ensures traces <= r
  {
    var span := Span(trace);
    if span in traces || !Fits(traces, span) then traces else traces + [span]
  }

  /** The id answered to an insertion. */
  ghost function Answer(traces: seq<seq<U64>>, trace: seq<U64>): (r: nat) {
    var span := Span(trace);
    if span in traces || Fits(traces, span) then FlipFlag(Find(traces, span)) else UNKNOWN_TRACE_ID
  }

  ghost predicate Unique(traces: seq<seq<U64>>) {
    forall i, j :: 0 <= i < j < |traces| ==> traces[i] != traces[j]
  }

  /** What every reachable store satisfies. */
  ghost predicate Sound(traces: seq<seq<U64>>) {
    && |traces| < ELEMENTS_COUNT && Used(traces) < STORAGE_SIZE
    && Unique(traces)
    && forall i :: 0 <= i < |traces| ==> |traces[i]| <= MAX_STACKTRACE_LENGTH
  }

  lemma UsedNext(traces: seq<seq<U64>>, span: seq<U64>)
    ensures Used(traces + [span]) == Used(traces) + |Encoded(span)|
  {
    assert (traces + [span])[..|traces|] == traces;
  }

  lemma StoredIsSound(traces: seq<seq<U64>>, trace: seq<U64>)
    requires Sound(traces)
    ensures Sound(Stored(traces, trace))
  {
    UsedNext(traces, Span(trace));
  }

  lemma {:induction false} FindNew(traces: seq<seq<U64>>, span: seq<U64>)
    requires span !in traces
    ensures Find(traces + [span], span) == |traces|
  {
    if traces != [] {
      FindNew(traces[1..], span);
      assert (traces + [span])[1..] == traces[1..] + [span];
    }
  }

  /** Asking again changes nothing, whether the trace was kept or not. */
  lemma AnswerSettles(traces: seq<seq<U64>>, trace: seq<U64>)
    requires Sound(traces)
    ensures Stored(Stored(traces, trace), trace) == Stored(traces, trace)
    ensures Answer(Stored(traces, trace), trace) == Answer(traces, trace)
  {
    var span := Span(trace);
    if span !in traces && Fits(traces, span) {
      FindNew(traces, span);
    }
  }

  lemma {:induction false} FindKnown(traces: seq<seq<U64>>, span: seq<U64>, other: seq<U64>)
    requires span in traces
    ensures Find(traces + [other], span) == Find(traces, span)
  {
    if traces[0] != span {
      FindKnown(traces[1..], span, other);
      assert (traces + [other])[1..] == traces[1..] + [other];
    }
  }

  lemma StaysUnknown(traces: seq<seq<U64>>, span: seq<U64>, next: seq<U64>)
    requires span !in traces && !Fits(traces, span) && Fits(traces, next)
    ensures span !in traces + [next] && !Fits(traces + [next], span)
  {
    UsedNext(traces, next);
  }

  /** A settled answer, an id or the unknown one, survives every other insertion. */
  lemma AnswerStays(traces: seq<seq<U64>>, trace: seq<U64>, other: seq<U64>)
    requires Sound(traces) && Stored(traces, trace) == traces
    ensures Stored(Stored(traces, other), trace) == Stored(traces, other)
    ensures Answer(Stored(traces, other), trace) == Answer(traces, trace)
  {
    var span, next := Span(trace), Span(other);
    if Stored(traces, other) != traces {
      UsedNext(traces, next);
      if span in traces {
        FindKnown(traces, span, next);
      } else {
        assert !Fits(traces, span) by {
          assert |traces + [span]| != |traces|;
        }
        StaysUnknown(traces, span, next);
      }
    }
  }

  // ----- whole runs

  /** The traces kept after a run of insertions. */
  ghost function After(run: seq<seq<U64>>): (r: seq<seq<U64>>) {
    if run == [] then [] else Stored(After(run[..|run| - 1]), run[|run| - 1])
  }

  lemma {:induction false} AfterIsSound(run: seq<seq<U64>>)
    ensures Sound(After(run))
  {
    if run != [] {
      AfterIsSound(run[..|run| - 1]);
      StoredIsSound(After(run[..|run| - 1]), run[|run| - 1]);
    }
  }

  /** The id answered to the i-th insertion of a run. */
  ghost function IdOf(run: seq<seq<U64>>, i: nat): (id: nat)
    requires i < |run|
  {
    Answer(After(run[..i]), run[i])
  }

  /** Whatever is inserted later, the i-th trace would be answered with the same id again. */
  lemma {:induction false} IdIsStable(run: seq<seq<U64>>, i: nat)
    requires i < |run|
    ensures Stored(After(run), run[i]) == After(run) && Answer(After(run), run[i]) == IdOf(run, i)
  {
    var less, last := run[..|run| - 1], run[|run| - 1];
    AfterIsSound(less);
    if i == |run| - 1 {
      assert run[..i] == less;
      AnswerSettles(After(less), last);
    } else {
      IdIsStable(less, i);
      assert less[..i] == run[..i];
      AnswerStays(After(less), run[i], last);
    }
  }

  /** What looking up an id gives in a store. */
  function Lookup(traces: seq<seq<U64>>, id: nat): (r: Option<seq<U64>>) {
    if id < FIXED_TRACKER_ID_FLAG || FlipFlag(id) >= |traces| then None else Some(traces[FlipFlag(id)])
  }

  /** A settled answer is the id of the kept span, or the unknown id, which names nothing. */
  lemma SettledLookup(traces: seq<seq<U64>>, trace: seq<U64>, id: nat)
    requires Sound(traces) && Stored(traces, trace) == traces && Answer(traces, trace) == id
    ensures id == UNKNOWN_TRACE_ID ==> Lookup(traces, id) == None
    ensures id != UNKNOWN_TRACE_ID ==> Lookup(traces, id) == Some(Span(trace))
  {
    var span := Span(trace);
    assert span in traces || !Fits(traces, span) by {
      assert |traces + [span]| != |traces|;
    }
  }

  /** In every later state an id gives back the first frames of its trace, or nothing if it is the unknown id. */
  lemma LookupIsStable(run: seq<seq<U64>>, i: nat)
    requires i < |run|
    ensures IdOf(run, i) == UNKNOWN_TRACE_ID ==> Lookup(After(run), IdOf(run, i)) == None
    ensures IdOf(run, i) != UNKNOWN_TRACE_ID ==> Lookup(After(run), IdOf(run, i)) == Some(Span(run[i]))
  {
    IdIsStable(run, i);
    AfterIsSound(run);
    SettledLookup(After(run), run[i], IdOf(run, i));
  }

  /** A trace of at most six frames takes at most 14 words. */
  lemma SpanSize(span: seq<U64>)
    requires |span| <= MAX_STACKTRACE_LENGTH
    ensures |Encoded(span)| <= 14
  {
    var control, data := Words(|Control(span)|), Words(|Data(span)|);
    assert 32 * control < 4 * |span| + 32 && 32 * data < 64 * |span| + 32;
  }

  lemma {:induction false} UsedBound(traces: seq<seq<U64>>)
    requires forall i :: 0 <= i < |traces| ==> |traces[i]| <= MAX_STACKTRACE_LENGTH
    ensures Used(traces) <= 14 * |traces|
  {
    if traces != [] {
      UsedBound(traces[..|traces| - 1]);
      SpanSize(traces[|traces| - 1]);
    }
  }

  lemma {:induction false} AfterBound(run: seq<seq<U64>>)
    ensures |After(run)| <= |run|
  {
    if run != [] {
      AfterBound(run[..|run| - 1]);
    }
  }

  /** The first 438 different traces are always accepted. */
  lemma FirstAreKept(run: seq<seq<U64>>, i: nat)
    requires i < |run| && |After(run[..i])| < 438
    ensures IdOf(run, i) != UNKNOWN_TRACE_ID && Lookup(After(run), IdOf(run, i)) == Some(Span(run[i]))
  {
    var traces := After(run[..i]);
    AfterIsSound(run[..i]);
    UsedBound(traces);
    SpanSize(Span(run[i]));
    assert Fits(traces, Span(run[i]));
    LookupIsStable(run, i);
  }

  /** In particular all traces of a run of at most 438 insertions. */
  lemma ShortRunIsKept(run: seq<seq<U64>>, i: nat)
    requires i < |run| <= 438
    ensures Lookup(After(run), IdOf(run, i)) == Some(Span(run[i]))
  {
    AfterBound(run[..i]);
    FirstAreKept(run, i);
  }

  /** Accepted traces share an id exactly when their first frames agree. */
  lemma SameIdIff(run: seq<seq<U64>>, i: nat, j: nat)
    requires i < |run| && j < |run| && IdOf(run, i) != UNKNOWN_TRACE_ID
    ensures IdOf(run, i) == IdOf(run, j) <==> Span(run[i]) == Span(run[j])
  {
    LookupIsStable(run, i);
    LookupIsStable(run, j);
    IdIsStable(run, i);
    IdIsStable(run, j);
  }
}

module StaticTracker {

  import opened Options
  import opened Bits
  import opened Codec
  import opened CodecRoundTrip
  import opened StaticStore

  /** A span into the storage, with the hash of the words in it. */
  datatype TraceElement = TraceElement(hash: nat, begin: nat, length: nat)

  // ----- the arrays, described by the list of compressed traces they hold

  ghost function Total(codes: seq<seq<Word>>): (r: nat) {
    if codes == [] then 0 else Total(codes[..|codes| - 1]) + |codes[|codes| - 1]|
  }

  ghost predicate Describes(storage: seq<Word>, e: TraceElement, hash: seq<Word> -> nat, begin: nat, words: seq<Word>) {
    && e == TraceElement(hash(words), begin, |words|)
    && begin + |words| <= |storage| && storage[begin..begin + |words|] == words
  }

  /** Element i describes the words of trace i, which stand behind those of the traces before it. */
  ghost predicate AllDescribed(storage: seq<Word>, elements: seq<TraceElement>, hash: seq<Word> -> nat,
                               codes: seq<seq<Word>>) {
    && |codes| <= |elements| && Total(codes) <= |storage|
    && forall i {:trigger elements[i]} :: 0 <= i < |codes| ==>
         Describes(storage, elements[i], hash, Total(codes[..i]), codes[i])
  }

  lemma TotalNext(codes: seq<seq<Word>>, i: nat)
    requires i < |codes|
    ensures Total(codes[..i + 1]) == Total(codes[..i]) + |codes[i]|
  {
    assert codes[..i + 1][..i] == codes[..i];
  }

  lemma TotalPlus(codes: seq<seq<Word>>, words: seq<Word>)
    ensures Total(codes + [words]) == Total(codes) + |words|
  {
    assert (codes + [words])[..|codes|] == codes;
  }

  lemma {:induction false} TotalGrows(codes: seq<seq<Word>>, i: nat, j: nat)
    requires i <= j <= |codes|
    ensures Total(codes[..i]) <= Total(codes[..j])
  {
    if i < j {
      TotalGrows(codes, i, j - 1);
      TotalNext(codes, j - 1);
    }
  }

  lemma Untouched(was: seq<Word>, now: seq<Word>, n: nat, a: nat, b: nat)
    requires a <= b <= n <= |was| && n <= |now| && now[..n] == was[..n]
    ensures now[a..b] == was[a..b]
  {
    forall j | a <= j < b ensures now[j] == was[j] {
      assert now[..n][j] == was[..n][j];
    }
  }

  lemma StillThere(was: seq<Word>, now: seq<Word>, n: nat, begin: nat, words: seq<Word>)
    requires begin + |words| <= n <= |was| == |now| && now[..n] == was[..n] && was[begin..begin + |words|] == words
    ensures now[begin..begin + |words|] == words
  {
    Untouched(was, now, n, begin, begin + |words|);
  }

  lemma TotalUpTo(codes: seq<seq<Word>>, i: nat)
    requires i < |codes|
    ensures Total(codes[..i]) + |codes[i]| <= Total(codes)
  {
    TotalNext(codes, i);
    TotalGrows(codes, i + 1, |codes|);
    assert codes[..|codes|] == codes;
  }

  lemma StillDescribed(was: seq<Word>, now: seq<Word>, e: TraceElement, hash: seq<Word> -> nat, codes: seq<seq<Word>>,
                       i: nat)
    requires i < |codes| && Describes(was, e, hash, Total(codes[..i]), codes[i])
    requires Total(codes) <= |was| == |now| && now[..Total(codes)] == was[..Total(codes)]
    ensures Describes(now, e, hash, Total(codes[..i]), codes[i])
  {
    TotalUpTo(codes, i);
    StillThere(was, now, Total(codes), Total(codes[..i]), codes[i]);
  }

  lemma PrefixOf(codes: seq<seq<Word>>, words: seq<Word>, i: nat)
    requires i < |codes|
    ensures (codes + [words])[..i] == codes[..i] && (codes + [words])[i] == codes[i]
  {
  }

  /** The new element describes the new words, and the others are as they were. */
  lemma Described(was: seq<Word>, now: seq<Word>, el: seq<TraceElement>, elements: seq<TraceElement>,
                  hash: seq<Word> -> nat,
                  codes: seq<seq<Word>>, words: seq<Word>)
    requires AllDescribed(was, el, hash, codes) && |now| == |was| && Total(codes) + |words| <= |now|
    requires now[..Total(codes)] == was[..Total(codes)] && now[Total(codes)..Total(codes) + |words|] == words
    requires |codes| < |el| && elements == el[|codes| := TraceElement(hash(words), Total(codes), |words|)]
    ensures AllDescribed(now, elements, hash, codes + [words])
  {
    var more := codes + [words];
    assert more[..|codes|] == codes;
    TotalPlus(codes, words);
    forall i {:trigger elements[i]} | 0 <= i < |more|
      ensures Describes(now, elements[i], hash, Total(more[..i]), more[i])
    {
      if i < |codes| {
        PrefixOf(codes, words, i);
        assert elements[i] == el[i];
        StillDescribed(was, now, el[i], hash, codes, i);
      }
    }
  }

  /** The spans of two elements do not overlap and end before the storage does. */
  lemma SpansAreDisjoint(storage: seq<Word>, elements: seq<TraceElement>, hash: seq<Word> -> nat, codes: seq<seq<Word>>,
                         i: nat, j: nat)
    requires AllDescribed(storage, elements, hash, codes) && i < j < |codes|
    ensures elements[i].begin + elements[i].length <= elements[j].begin
    ensures elements[j].begin + elements[j].length <= |storage|
  {
    TotalNext(codes, i);
    TotalGrows(codes, i + 1, j);
    assert Describes(storage, elements[i], hash, Total(codes[..i]), codes[i]);
    assert Describes(storage, elements[j], hash, Total(codes[..j]), codes[j]);
  }

  // ----- the compressed traces

  ghost predicate CodeAt(traces: seq<seq<U64>>, codes: seq<seq<Word>>, i: nat)
    requires i < |traces| == |codes|
  {
    codes[i] == Encoded(traces[i])
  }

  ghost predicate Coded(traces: seq<seq<U64>>, codes: seq<seq<Word>>) {
    && |traces| == |codes| && Used(traces) == Total(codes)
    && forall i {:trigger CodeAt(traces, codes, i)} :: 0 <= i < |traces| ==> CodeAt(traces, codes, i)
  }

  lemma CodedNext(traces: seq<seq<U64>>, codes: seq<seq<Word>>, span: seq<U64>, words: seq<Word>)
    requires Coded(traces, codes) && words == Encoded(span)
    ensures Coded(traces + [span], codes + [words])
  {
    UsedNext(traces, span);
    assert (codes + [words])[..|codes|] == codes;
    forall i | 0 <= i <= |traces| ensures CodeAt(traces + [span], codes + [words], i) {
      if i < |traces| {
        assert CodeAt(traces, codes, i);
      }
    }
  }

  /** Comparing compressed words finds exactly the equal trace. */
  lemma FoundIff(traces: seq<seq<U64>>, codes: seq<seq<Word>>, span: seq<U64>, words: seq<Word>, i: nat)
    requires Sound(traces) && Coded(traces, codes)
    requires |span| <= MAX_STACKTRACE_LENGTH && words == Encoded(span) && i <= |codes|
    requires i < |codes| ==> codes[i] == words
    requires forall j :: 0 <= j < i ==> codes[j] != words
    ensures span in traces <==> i < |traces|
    ensures Find(traces, span) == i
  {
    forall j | 0 <= j < i ensures traces[j] != span {
      assert CodeAt(traces, codes, j);
    }
    if i < |traces| {
      assert CodeAt(traces, codes, i);
      EncodingIsInjective(traces[i], span);
    }
  }

  /** The two tests of an insertion decide what is stored and answered. */
  lemma Outcome(traces: seq<seq<U64>>, span: seq<U64>, i: nat, length: nat, used: nat)
    requires |span| <= MAX_STACKTRACE_LENGTH && length == |Encoded(span)| && used == Used(traces)
    requires Find(traces, span) == i && (span in traces <==> i < |traces|) && i <= |traces| < ELEMENTS_COUNT
    ensures i < |traces| ==> Stored(traces, span) == traces && FlipFlag(Answer(traces, span)) == i
    ensures i == |traces| && used + length < STORAGE_SIZE && |traces| + 1 < ELEMENTS_COUNT ==>
      Stored(traces, span) == traces + [span] && FlipFlag(Answer(traces, span)) == i
    ensures i == |traces| && !(used + length < STORAGE_SIZE && |traces| + 1 < ELEMENTS_COUNT) ==>
      Stored(traces, span) == traces && Answer(traces, span) == UNKNOWN_TRACE_ID
  {
  }

  /** Reading back the words of trace i. */
  lemma CodeReadsBack(traces: seq<seq<U64>>, codes: seq<seq<Word>>, i: nat)
    requires Sound(traces) && Coded(traces, codes) && i < |traces|
    ensures Decoded(codes[i]) == Good(traces[i])
  {
    assert CodeAt(traces, codes, i);
    RoundTrip(traces[i]);
  }

  class StaticStacktraceTracker {
    const hash: seq<Word> -> nat
    const storage: array<Word>
    const elements: array<TraceElement>
    const compressedTrace: array<Word>
    const decompressedTrace: array<U64>
    var size: nat
    var storageSize: nat

    ghost var traces: seq<seq<U64>>
    ghost var codes: seq<seq<Word>>

    ghost predicate Valid()
      reads this, storage, elements
    {
      && storage.Length == STORAGE_SIZE && elements.Length == ELEMENTS_COUNT
      && compressedTrace.Length == MAX_STACKTRACE_LENGTH * 8 && decompressedTrace.Length == MAX_STACKTRACE_LENGTH * 4
      && storage != compressedTrace
      && Sound(traces) && Coded(traces, codes)
      && size == |traces| && storageSize == Total(codes)
      && AllDescribed(storage[..], elements[..], hash, codes)
    }

    constructor (hash: seq<Word> -> nat)
      ensures Valid() && traces == []
      ensures fresh(storage) && fresh(elements) && fresh(compressedTrace) && fresh(decompressedTrace)
    {
      this.hash := hash;
      storage := new Word[STORAGE_SIZE](_ => seq(32, _ => false));
      elements := new TraceElement[ELEMENTS_COUNT](_ => TraceElement(0, 0, 0));
      compressedTrace := new Word[MAX_STACKTRACE_LENGTH * 8](_ => seq(32, _ => false));
      decompressedTrace := new U64[MAX_STACKTRACE_LENGTH * 4](_ => 0);
      size := 0;
      storageSize := 0;
      traces := [];
      codes := [];
    }

    /** The first element with the hash and the words. */
    method FindElement(h: nat, words: seq<Word>) returns (i: nat)
      requires Valid() && h == hash(words)
      ensures i <= size == |codes|
      ensures i < size ==> codes[i] == words
      ensures forall j :: 0 <= j < i ==> codes[j] != words
    {
      i := 0;
      while i < size
        invariant i <= size
        invariant forall j :: 0 <= j < i ==> codes[j] != words
      {
        var e := elements[i];
        assert Describes(storage[..], elements[..][i], hash, Total(codes[..i]), codes[i]);
        if e.hash == h && storage[e.begin..e.begin + e.length] == words {
          return;
        }
        i := i + 1;
      }
    }

    /** Copies the compressed trace behind the words in use. */
    method CopyWords(length: nat)
      requires storage != compressedTrace && length <= compressedTrace.Length && storageSize + length <= storage.Length
      modifies storage
      ensures storage[..storageSize] == old(storage[..storageSize])
      ensures storage[storageSize..storageSize + length] == compressedTrace[..length]
    {
      var k: nat := 0;
      while k < length
        invariant k <= length
        invariant storage[..storageSize] == old(storage[..storageSize])
        invariant storage[storageSize..storageSize + k] == compressedTrace[..k]
      {
        storage[storageSize + k] := compressedTrace[k];
        k := k + 1;
      }
    }

    method Append(h: nat, length: nat, ghost span: seq<U64>, ghost words: seq<Word>)
      requires Valid() && Sound(traces + [span]) && Coded(traces + [span], codes + [words])
      requires |words| == length && h == hash(words)
      requires length <= compressedTrace.Length && compressedTrace[..length] == words
      requires storageSize + length < STORAGE_SIZE && size + 1 < ELEMENTS_COUNT
      modifies this, storage, elements
      ensures Valid() && traces == old(traces) + [span]
    {
      ghost var was, el := storage[..], elements[..];
      elements[size] := TraceElement(h, storageSize, length);
      CopyWords(length);
      assert storage[..][..storageSize] == was[..storageSize];
      assert storage[..][storageSize..storageSize + length] == words;
      Described(was, storage[..], el, elements[..], hash, codes, words);
      TotalPlus(codes, words);
      storageSize := storageSize + length;
      size := size + 1;
      traces := traces + [span];
      codes := codes + [words];
    }

    method InsertStacktraceUnlocked(span: seq<U64>) returns (id: nat)
      requires Valid() && |span| <= MAX_STACKTRACE_LENGTH
      modifies this, storage, elements, compressedTrace
      ensures Valid() && traces == Stored(old(traces), span) && id == FlipFlag(Answer(old(traces), span))
    {
      var compressedSize := Compress(span, compressedTrace);
      var words := compressedTrace[..compressedSize];
      var h := hash(words);
      id := FindElement(h, words);
      FoundIff(traces, codes, span, words, id);
      Outcome(traces, span, id, compressedSize, storageSize);
      if id == size {
        if storageSize + compressedSize < STORAGE_SIZE && size + 1 < ELEMENTS_COUNT {
          CodedNext(traces, codes, span, words);
          StoredIsSound(traces, span);
          Append(h, compressedSize, span, words);
        } else {
          id := FlipFlag(UNKNOWN_TRACE_ID);
        }
      }
    }

    /** Only the first frames of a trace are kept. */
    method InsertStacktrace(trace: seq<U64>) returns (id: nat)
      requires Valid()
      modifies this, storage, elements, compressedTrace
      ensures Valid() && traces == Stored(old(traces), trace) && id == Answer(old(traces), trace)
    {
      var span := trace;
      if |span| > MAX_STACKTRACE_LENGTH {
        span := span[..MAX_STACKTRACE_LENGTH];
      }
      var traceId := InsertStacktraceUnlocked(span);
      id := FlipFlag(traceId);
    }

    method SpanAt(i: nat) returns (words: seq<Word>)
      requires Valid() && i < size == |codes|
      ensures words == codes[i]
    {
      var e := elements[i];
      assert Describes(storage[..], elements[..][i], hash, Total(codes[..i]), codes[i]);
      words := storage[e.begin..e.begin + e.length];
    }

    method GetStacktrace(i: nat) returns (trace: seq<U64>)
      requires Valid() && i < size == |traces|
      modifies decompressedTrace
      ensures Valid() && trace == traces[i]
    {
      CodeReadsBack(traces, codes, i);
      var words := SpanAt(i);
      var total := Decompress(words, decompressedTrace);
      trace := decompressedTrace[..total];
    }

    method GetStacktraceFromId(id: nat) returns (r: Option<seq<U64>>)
      requires Valid()
      modifies decompressedTrace
      ensures Valid() && r == Lookup(traces, id)
    {
      if id < FIXED_TRACKER_ID_FLAG {
        return None;
      }
      var i := FlipFlag(id);
      if i >= size {
        return None;
      }
      var trace := GetStacktrace(i);
      r := Some(trace);
    }
  }
}
