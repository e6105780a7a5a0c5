/**
 * The tracer's worker (ddtrace/tracer/tracer.go): finished chunks are queued on a bounded channel;
 * the worker samples the spans of dropped ones, hands the rest to the writer, and on stop drains
 * the channel before it returns.
 */
module Worker {
  import opened Common
  import opened TraceModel
  import opened SpanRules
  import KnuthSampler

  const PAYLOAD_QUEUE_SIZE: nat := 1000

  /** Unsigned 32-bit arithmetic. */
  function Wrap32(x: int): (r: nat)
    ensures r < U32
  {
    x % U32
  }

  // ---------------------------------------------------------------------
  // Sampling one chunk

  /** The spans the rules keep: `keeps(i)` is their answer for the i-th span. */
  function Selected<S>(spans: seq<S>, keeps: nat -> bool): seq<S> {
    if spans == [] then []
    else
      var n := |spans| - 1;
      if keeps(n) then Selected(spans[..n], keeps) + [spans[n]] else Selected(spans[..n], keeps)
  }

  /** What is left of a chunk to be written. */
  function Kept<S>(info: Chunk<S>, hasSpanRules: bool, keeps: nat -> bool): seq<S> {
    if info.decision == Keep then info.spans
    else if hasSpanRules then Selected(info.spans, keeps)
    else []
  }

  ghost predicate Ascending(ps: seq<nat>, n: nat) {
    (forall i :: 0 <= i < |ps| ==> ps[i] < n) && (forall i, j :: 0 <= i < j < |ps| ==> ps[i] < ps[j])
  }

  ghost predicate PickedBy<S>(xs: seq<S>, spans: seq<S>, ps: seq<nat>) {
    |ps| == |xs| && Ascending(ps, |spans|) && forall i :: 0 <= i < |xs| ==> xs[i] == spans[ps[i]]
  }

  ghost predicate Subsequence<S(!new)>(xs: seq<S>, spans: seq<S>) {
    exists ps: seq<nat> :: PickedBy(xs, spans, ps)
  }

  /** The selected spans are those at the positions the rules answered for, in order. */
  lemma {:induction false} SelectedPositions<S>(spans: seq<S>, keeps: nat -> bool) returns (ps: seq<nat>)
    ensures PickedBy(Selected(spans, keeps), spans, ps)
    ensures forall p: nat :: p in ps <==> p < |spans| && keeps(p)
    decreases |spans|
  {
    if spans == [] {
      ps := [];
    } else {
      var n := |spans| - 1;
      ps := SelectedPositions(spans[..n], keeps);
      if keeps(n) {
        ps := ps + [n];
      }
    }
  }

  /** A chunk is written whole, as an ordered part of itself, or not at all. */
  lemma KeptIsSubsequence<S(!new)>(info: Chunk<S>, hasSpanRules: bool, keeps: nat -> bool)
    ensures Subsequence(Kept(info, hasSpanRules, keeps), info.spans)
    ensures |Kept(info, hasSpanRules, keeps)| <= |info.spans|
  {
    var kept, spans := Kept(info, hasSpanRules, keeps), info.spans;
    if info.decision == Keep {
      var all := seq(|spans|, i requires 0 <= i < |spans| => i);
      assert PickedBy(kept, spans, all);
    } else if hasSpanRules {
      var ps := SelectedPositions(spans, keeps);
      AscendingFits(ps, |spans|);
    } else {
      assert PickedBy(kept, spans, []);
    }
  }

  /** What the span rules answer, given each span's data and draw. */
  function Answers<S>(t: TraceState<S>, rules: seq<Rule>, data: nat -> SpanData, draws: nat -> Draw): nat -> bool {
    (p: nat) => Apply(t, data(p), rules, draws(p).id, draws(p).answer).kept
  }

  predicate KeepsSpan(rules: seq<Rule>, d: SpanData, draw: Draw, i: nat) {
    FirstMatch(rules, d, i) && KnuthSampler.SampledByRate(draw.id, rules[i].rate) && (rules[i].limited ==> draw.answer.sampled)
  }

  /**
   * Which spans of a chunk that is not to be kept are written: in order, exactly those whose first
   * matching rule samples their ID and, if limited, is allowed by the limiter.
   */
  lemma RulesDecide<S>(info: Chunk<S>, t: TraceState<S>, rules: seq<Rule>, data: nat -> SpanData, draws: nat -> Draw)
    returns (ps: seq<nat>)
    requires info.decision != Keep
    ensures PickedBy(Kept(info, rules != [], Answers(t, rules, data, draws)), info.spans, ps)
    ensures forall p: nat :: p in ps <==> p < |info.spans| && exists i: nat :: KeepsSpan(rules, data(p), draws(p), i)
  {
    hide Apply, Match, KnuthSampler.SampledByRate;
    if rules == [] {
      ps := [];
      forall p: nat, i: nat ensures !KeepsSpan(rules, data(p), draws(p), i) {
        NoRuleMatches(data(p), i);
      }
    } else {
      ps := SelectedPositions(info.spans, Answers(t, rules, data, draws));
      forall p: nat ensures Answers(t, rules, data, draws)(p) <==> exists i: nat :: KeepsSpan(rules, data(p), draws(p), i) {
        FirstMatchDecides(t, data(p), rules, draws(p).id, draws(p).answer);
        if i: nat :| FirstMatch(rules, data(p), i) && KnuthSampler.SampledByRate(draws(p).id, rules[i].rate)
                     && (rules[i].limited ==> draws(p).answer.sampled) {
          assert KeepsSpan(rules, data(p), draws(p), i);
        }
      }
    }
  }

  lemma NoRuleMatches(d: SpanData, i: nat)
    ensures !FirstMatch([], d, i)
  {
  }

  lemma {:induction false} AscendingFits(ps: seq<nat>, n: nat)
    requires Ascending(ps, n)
    ensures |ps| <= n
    decreases n
  {
    if ps != [] {
      AscendingFits(ps[..|ps| - 1], ps[|ps| - 1]);
    }
  }

  /** The three 32-bit counters of the tracer. */
  datatype Counters = Counters(droppedP0Traces: nat, droppedP0Spans: nat, partialTraces: nat)

  /** What sampling a chunk and keeping `kept` of it adds to the counters. */
  function Counted<S>(c: Counters, info: Chunk<S>, kept: seq<S>): Counters {
    if info.decision == Keep then c
    else Counters(
      if kept == [] then Wrap32(c.droppedP0Traces + 1) else c.droppedP0Traces,
      Wrap32(c.droppedP0Spans + (|info.spans| - |kept|)),
      if 0 < |kept| < |info.spans| then Wrap32(c.partialTraces + 1) else c.partialTraces)
  }

  // ---------------------------------------------------------------------
  // The queue, its producers and the worker

  datatype Phase = Looping | Draining | Returned

  /** A chunk the worker took, and what it kept of it. */
  datatype Outcome<S> = Outcome(chunk: Chunk<S>, kept: seq<S>)

  /**
   * `pushing` holds the chunks whose push has found the stop channel open and has yet to try the
   * queue; `counters` are the 32-bit counters that the transport swaps to zero.  The rest is
   * history.
   */
  datatype State<S> = State(
    out: seq<Chunk<S>>, stopped: bool, phase: Phase, pushing: seq<Chunk<S>>, counters: Counters,
    accepted: seq<Chunk<S>>, processed: seq<Outcome<S>>, written: seq<seq<S>>, reported: seq<Counters>)

  datatype Action<S> =
    | Push(trace: Chunk<S>)
    | TrySend(i: nat)
    | Receive(keeps: nat -> bool)
    | CloseStop
    | SeeStop
    | FindEmpty
    | SwapCounters

  function Initial<S>(): State<S> { State([], false, Looping, [], Counters(0, 0, 0), [], [], [], []) }

  predicate Enabled<S>(st: State<S>, a: Action<S>) {
    match a
    case Push(_) => true
    case TrySend(i) => i < |st.pushing|
    case Receive(_) => st.phase != Returned && st.out != []
    case CloseStop => true
    case SeeStop => st.stopped && st.phase == Looping
    case FindEmpty => st.phase == Draining && st.out == []
    case SwapCounters => true
  }

  function Received<S>(st: State<S>, hasSpanRules: bool, keeps: nat -> bool): State<S>
    requires st.out != []
  {
    var info := st.out[0];
    var kept := Kept(info, hasSpanRules, keeps);
    st.(out := st.out[1..],
        counters := Counted(st.counters, info, kept),
        processed := st.processed + [Outcome(info, kept)],
        written := if kept == [] then st.written else st.written + [kept])
  }

  function Step<S>(st: State<S>, a: Action<S>, hasSpanRules: bool): State<S>
    requires Enabled(st, a)
  {
    match a
    case Push(trace) => if st.stopped then st else st.(pushing := st.pushing + [trace])
    case TrySend(i) =>
      var trace, rest := st.pushing[i], st.pushing[..i] + st.pushing[i + 1..];
      if |st.out| < PAYLOAD_QUEUE_SIZE
      then st.(pushing := rest, out := st.out + [trace], accepted := st.accepted + [trace])
      else st.(pushing := rest)
    case Receive(keeps) => Received(st, hasSpanRules, keeps)
    case CloseStop => st.(stopped := true)
    case SeeStop => st.(phase := Draining)
    case FindEmpty => st.(phase := Returned)
    case SwapCounters => st.(counters := Counters(0, 0, 0), reported := st.reported + [st.counters])
  }

  predicate Runs<S>(st: State<S>, actions: seq<Action<S>>, hasSpanRules: bool)
    decreases |actions|
  {
    actions == [] || (Enabled(st, actions[0]) && Runs(Step(st, actions[0], hasSpanRules), actions[1..], hasSpanRules))
  }

  function After<S>(st: State<S>, actions: seq<Action<S>>, hasSpanRules: bool): State<S>
    requires Runs(st, actions, hasSpanRules)
    decreases |actions|
  {
    if actions == [] then st else After(Step(st, actions[0], hasSpanRules), actions[1..], hasSpanRules)
  }

  // ---------------------------------------------------------------------
  // Accounting

  function Spans<S>(chunks: seq<Chunk<S>>): nat {
    if chunks == [] then 0 else Spans(chunks[..|chunks| - 1]) + |chunks[|chunks| - 1].spans|
  }

  function Lengths<S>(lists: seq<seq<S>>): nat {
    if lists == [] then 0 else Lengths(lists[..|lists| - 1]) + |lists[|lists| - 1]|
  }

  /** The totals of the counters reported so far. */
  function Sum(cs: seq<Counters>): Counters {
    if cs == [] then Counters(0, 0, 0)
    else
      var rest, c := Sum(cs[..|cs| - 1]), cs[|cs| - 1];
      Counters(rest.droppedP0Traces + c.droppedP0Traces, rest.droppedP0Spans + c.droppedP0Spans,
               rest.partialTraces + c.partialTraces)
  }

  /** The chunks not to be kept of which nothing was written. */
  function DroppedChunks<S>(processed: seq<Outcome<S>>): nat {
    if processed == [] then 0
    else
      var o := processed[|processed| - 1];
      DroppedChunks(processed[..|processed| - 1]) + if o.chunk.decision != Keep && o.kept == [] then 1 else 0
  }

  /** The chunks of which a part was written, neither nothing nor all. */
  function PartialChunks<S>(processed: seq<Outcome<S>>): nat {
    if processed == [] then 0
    else
      var o := processed[|processed| - 1];
      PartialChunks(processed[..|processed| - 1]) + if 0 < |o.kept| < |o.chunk.spans| then 1 else 0
  }

  /** Reported and pending counts agree with the history, each modulo 2^32. */
  ghost predicate CountersAgree<S>(st: State<S>) {
    var total := Sum(st.reported);
    && Wrap32(total.droppedP0Spans + st.counters.droppedP0Spans) == Wrap32(Dropped(st.processed))
    && Wrap32(total.droppedP0Traces + st.counters.droppedP0Traces) == Wrap32(DroppedChunks(st.processed))
    && Wrap32(total.partialTraces + st.counters.partialTraces) == Wrap32(PartialChunks(st.processed))
  }

  /** The spans that the worker took and did not write. */
  function Dropped<S>(processed: seq<Outcome<S>>): int {
    if processed == [] then 0
    else
      var o := processed[|processed| - 1];
      Dropped(processed[..|processed| - 1]) + |o.chunk.spans| - |o.kept|
  }

  function ChunksOf<S>(processed: seq<Outcome<S>>): (r: seq<Chunk<S>>)
    ensures |r| == |processed|
  {
    seq(|processed|, i requires 0 <= i < |processed| => processed[i].chunk)
  }

  /** What of the chunks taken was not empty, in order. */
  function NonEmpty<S>(processed: seq<Outcome<S>>): seq<seq<S>> {
    if processed == [] then []
    else
      var rest, o := NonEmpty(processed[..|processed| - 1]), processed[|processed| - 1];
      if o.kept == [] then rest else rest + [o.kept]
  }

  /** A chunk to keep is kept whole; of the others an ordered part is kept, and nothing without rules. */
  ghost predicate Explained<S(!new)>(o: Outcome<S>, hasSpanRules: bool) {
    && Subsequence(o.kept, o.chunk.spans) && |o.kept| <= |o.chunk.spans|
    && (o.chunk.decision == Keep ==> o.kept == o.chunk.spans)
    && (o.chunk.decision != Keep && !hasSpanRules ==> o.kept == [])
  }

  ghost predicate Inv<S(!new)>(st: State<S>, hasSpanRules: bool) {
    && |st.out| <= PAYLOAD_QUEUE_SIZE
    && st.accepted == ChunksOf(st.processed) + st.out
    && st.written == NonEmpty(st.processed)
    && (forall i :: 0 <= i < |st.processed| ==> Explained(st.processed[i], hasSpanRules))
    && CountersAgree(st)
    && (st.phase != Looping ==> st.stopped)
  }

  lemma {:induction false} SpansAppend<S>(xs: seq<Chunk<S>>, ys: seq<Chunk<S>>)
    ensures Spans(xs + ys) == Spans(xs) + Spans(ys)
    decreases |ys|
  {
    if ys == [] {
      assert xs + ys == xs;
    } else {
      assert (xs + ys)[..|xs + ys| - 1] == xs + ys[..|ys| - 1];
      SpansAppend(xs, ys[..|ys| - 1]);
    }
  }

  /** Of the spans taken, those written and those dropped are all. */
  lemma {:induction false} TakenIsWrittenOrDropped<S>(processed: seq<Outcome<S>>)
    ensures Spans(ChunksOf(processed)) == Lengths(NonEmpty(processed)) + Dropped(processed)
    decreases |processed|
  {
    if processed != [] {
      var front, o := processed[..|processed| - 1], processed[|processed| - 1];
      TakenIsWrittenOrDropped(front);
      assert ChunksOf(processed)[..|processed| - 1] == ChunksOf(front);
      assert (NonEmpty(front) + [o.kept])[..|NonEmpty(front)|] == NonEmpty(front);
    }
  }

  lemma ProcessedSnoc<S>(processed: seq<Outcome<S>>, o: Outcome<S>)
    ensures var all := processed + [o];
            && ChunksOf(all) == ChunksOf(processed) + [o.chunk]
            && NonEmpty(all) == (if o.kept == [] then NonEmpty(processed) else NonEmpty(processed) + [o.kept])
            && Dropped(all) == Dropped(processed) + |o.chunk.spans| - |o.kept|
            && DroppedChunks(all) == DroppedChunks(processed) + (if o.chunk.decision != Keep && o.kept == [] then 1 else 0)
            && PartialChunks(all) == PartialChunks(processed) + (if 0 < |o.kept| < |o.chunk.spans| then 1 else 0)
  {
    assert (processed + [o])[..|processed + [o]| - 1] == processed;
  }

  lemma WrapSum(a: nat, b: nat, d: int, x: nat)
    requires Wrap32(a + b) == Wrap32(d)
    ensures Wrap32(a + Wrap32(b + x)) == Wrap32(d + x)
  {
    assert (b + x) % U32 == (b + x) - (b + x) / U32 * U32;
  }

  lemma CountAgrees<S>(st: State<S>, o: Outcome<S>)
    requires CountersAgree(st) && |o.kept| <= |o.chunk.spans| && (o.chunk.decision == Keep ==> o.kept == o.chunk.spans)
    ensures CountersAgree(st.(counters := Counted(st.counters, o.chunk, o.kept), processed := st.processed + [o]))
  {
    hide Wrap32, Sum, Dropped, DroppedChunks, PartialChunks;
    ProcessedSnoc(st.processed, o);
    var total := Sum(st.reported);
    WrapSum(total.droppedP0Spans, st.counters.droppedP0Spans, Dropped(st.processed), |o.chunk.spans| - |o.kept|);
    WrapSum(total.droppedP0Traces, st.counters.droppedP0Traces, DroppedChunks(st.processed), 1);
    WrapSum(total.partialTraces, st.counters.partialTraces, PartialChunks(st.processed), 1);
  }

  lemma ReceiveKeeps<S(!new)>(st: State<S>, hasSpanRules: bool, keeps: nat -> bool)
    requires st.out != [] && Inv(st, hasSpanRules)
    ensures Inv(Received(st, hasSpanRules, keeps), hasSpanRules)
  {
    hide Kept, Explained, NonEmpty, ChunksOf, Counted, CountersAgree, Dropped, DroppedChunks, PartialChunks;
    var info := st.out[0];
    var kept := Kept(info, hasSpanRules, keeps);
    var o := Outcome(info, kept);
    KeptExplained(info, hasSpanRules, keeps);
    KeptWhole(info, hasSpanRules, keeps);
    ProcessedSnoc(st.processed, o);
    CountAgrees(st, o);
    SameCount(st.(counters := Counted(st.counters, info, kept), processed := st.processed + [o]),
              Received(st, hasSpanRules, keeps));
    QueueShift(ChunksOf(st.processed), st.out);
    AllExplained(st.processed, o, hasSpanRules);
  }

  lemma QueueShift<S>(taken: seq<Chunk<S>>, out: seq<Chunk<S>>)
    requires out != []
    ensures taken + out == taken + [out[0]] + out[1..]
  {
  }

  lemma AllExplained<S(!new)>(processed: seq<Outcome<S>>, o: Outcome<S>, hasSpanRules: bool)
    requires (forall i :: 0 <= i < |processed| ==> Explained(processed[i], hasSpanRules)) && Explained(o, hasSpanRules)
    ensures forall i :: 0 <= i < |processed + [o]| ==> Explained((processed + [o])[i], hasSpanRules)
  {
    hide Explained;
  }

  lemma SameCount<S>(y: State<S>, z: State<S>)
    requires CountersAgree(y) && z.counters == y.counters && z.reported == y.reported && z.processed == y.processed
    ensures CountersAgree(z)
  {
  }

  lemma SwapAgrees<S>(st: State<S>)
    requires CountersAgree(st)
    ensures CountersAgree(st.(counters := Counters(0, 0, 0), reported := st.reported + [st.counters]))
  {
    hide Wrap32, Dropped, DroppedChunks, PartialChunks;
    assert (st.reported + [st.counters])[..|st.reported|] == st.reported;
  }

  lemma KeptExplained<S(!new)>(info: Chunk<S>, hasSpanRules: bool, keeps: nat -> bool)
    ensures Explained(Outcome(info, Kept(info, hasSpanRules, keeps)), hasSpanRules)
    ensures |Kept(info, hasSpanRules, keeps)| <= |info.spans|
  {
    KeptIsSubsequence(info, hasSpanRules, keeps);
  }

  lemma KeptWhole<S>(info: Chunk<S>, hasSpanRules: bool, keeps: nat -> bool)
    ensures info.decision == Keep ==> Kept(info, hasSpanRules, keeps) == info.spans
    ensures info.decision != Keep && !hasSpanRules ==> Kept(info, hasSpanRules, keeps) == []
  {
  }

  lemma StepKeeps<S(!new)>(st: State<S>, a: Action<S>, hasSpanRules: bool)
    requires Enabled(st, a) && Inv(st, hasSpanRules)
    ensures Inv(Step(st, a, hasSpanRules), hasSpanRules)
  {
    hide Kept, Explained, NonEmpty, ChunksOf, CountersAgree;
    match a {
      case Receive(keeps) => ReceiveKeeps(st, hasSpanRules, keeps);
      case SwapCounters => SwapAgrees(st);
      case _ => SameCount(st, Step(st, a, hasSpanRules));
    }
  }

  lemma {:induction false} RunKeeps<S(!new)>(st: State<S>, actions: seq<Action<S>>, hasSpanRules: bool)
    requires Runs(st, actions, hasSpanRules) && Inv(st, hasSpanRules)
    ensures Inv(After(st, actions, hasSpanRules), hasSpanRules)
    decreases |actions|
  {
    hide Inv, Step;
    if actions != [] {
      StepKeeps(st, actions[0], hasSpanRules);
      RunKeeps(Step(st, actions[0], hasSpanRules), actions[1..], hasSpanRules);
    }
  }

  lemma InitialInv<S(!new)>(hasSpanRules: bool)
    ensures Inv<S>(Initial(), hasSpanRules)
  {
    assert ChunksOf<S>([]) == [];
  }

  /**
   * In every run, the spans accepted into the queue are those still queued, those handed to the
   * writer and those dropped, and the reported and pending counts of dropped spans, of dropped chunks
   * and of partial chunks agree with the history modulo 2^32.  Chunks are taken in the order accepted; each is written as an ordered part of
   * itself, whole when the decision was to keep it.
   */
  lemma SpansAreConserved<S(!new)>(actions: seq<Action<S>>, hasSpanRules: bool)
    requires Runs(Initial(), actions, hasSpanRules)
    ensures var st := After(Initial(), actions, hasSpanRules);
            && Spans(st.accepted) == Spans(st.out) + Lengths(st.written) + Dropped(st.processed)
            && CountersAgree(st)
            && st.accepted == ChunksOf(st.processed) + st.out && |st.out| <= PAYLOAD_QUEUE_SIZE
            && st.written == NonEmpty(st.processed)
            && (forall i :: 0 <= i < |st.processed| ==> Explained(st.processed[i], hasSpanRules))
  {
    hide Runs, After, Explained;
    var st := After(Initial(), actions, hasSpanRules);
    InitialInv<S>(hasSpanRules);
    RunKeeps(Initial(), actions, hasSpanRules);
    SpansAppend(ChunksOf(st.processed), st.out);
    TakenIsWrittenOrDropped(st.processed);
  }

  /** When the worker returns, everything accepted so far has been written or dropped. */
  lemma DrainedBeforeReturn<S(!new)>(actions: seq<Action<S>>, hasSpanRules: bool)
    requires Runs(Initial(), actions, hasSpanRules)
    requires Enabled(After(Initial(), actions, hasSpanRules), FindEmpty)
    ensures var st := After(Initial(), actions, hasSpanRules);
            && st.stopped && ChunksOf(st.processed) == st.accepted
            && Spans(st.accepted) == Lengths(st.written) + Dropped(st.processed)
  {
    hide Runs, After, Explained;
    var st := After(Initial(), actions, hasSpanRules);
    InitialInv<S>(hasSpanRules);
    RunKeeps(Initial(), actions, hasSpanRules);
    assert ChunksOf(st.processed) + [] == ChunksOf(st.processed);
    TakenIsWrittenOrDropped(st.processed);
  }

  /** After stop is closed only pushes that had already passed the check can still be accepted. */
  lemma {:induction false} FewPushesAfterStop<S>(st: State<S>, actions: seq<Action<S>>, hasSpanRules: bool)
    requires Runs(st, actions, hasSpanRules) && st.stopped
    ensures var end := After(st, actions, hasSpanRules);
            |end.accepted| + |end.pushing| <= |st.accepted| + |st.pushing|
    decreases |actions|
  {
    hide Received;
    if actions != [] {
      if actions[0].Receive? {
        ReceiveFrame(st, actions[0], hasSpanRules);
      }
      FewPushesAfterStop(Step(st, actions[0], hasSpanRules), actions[1..], hasSpanRules);
    }
  }

  lemma ReceiveFrame<S>(st: State<S>, a: Action<S>, hasSpanRules: bool)
    requires Enabled(st, a) && a.Receive?
    ensures var r := Received(st, hasSpanRules, a.keeps);
            r.accepted == st.accepted && r.pushing == st.pushing && r.stopped == st.stopped
  {
  }

  // ---------------------------------------------------------------------
  // The operations

  /** The chunks handed to the writer when those of `chunks` are taken in turn. */
  function Handed<S>(chunks: seq<Chunk<S>>, hasSpanRules: bool, keeps: nat -> nat -> bool): seq<seq<S>> {
    if chunks == [] then []
    else
      var n := |chunks| - 1;
      var rest, kept := Handed(chunks[..n], hasSpanRules, keeps), Kept(chunks[n], hasSpanRules, keeps(n));
      if kept == [] then rest else rest + [kept]
  }

  class Tracer<S> {
    var out: seq<Chunk<S>>
    var stopped: bool
    var counters: Counters
    var written: seq<seq<S>>
    const hasSpanRules: bool

    constructor (hasSpanRules: bool)
      ensures out == [] && !stopped && counters == Counters(0, 0, 0) && written == [] && this.hasSpanRules == hasSpanRules
    {
      out, stopped, counters, written, this.hasSpanRules := [], false, Counters(0, 0, 0), [], hasSpanRules;
    }

    /**
     * Between the two selects others may leave the queue as `meanwhile`, and close stop; what counts
     * is whether stop was closed at the first and whether there is room at the second.
     */
    method PushTrace(trace: Chunk<S>, meanwhile: seq<Chunk<S>>, stopCloses: bool)
      modifies this`out, this`stopped
      ensures old(stopped) ==> stopped && out == old(out)
      ensures !old(stopped) ==> stopped == stopCloses
      ensures !old(stopped) ==> out == if |meanwhile| < PAYLOAD_QUEUE_SIZE then meanwhile + [trace] else meanwhile
    {
      if stopped {
        return;
      }
      out, stopped := meanwhile, stopCloses;
      if |out| < PAYLOAD_QUEUE_SIZE {
        out := out + [trace];
      }
    }

    /** `keeps(i)` is what the span rules answer for the i-th span. */
    method SampleFinishedTrace(info: Chunk<S>, keeps: nat -> bool) returns (spans: seq<S>)
      modifies this`counters
      ensures spans == Kept(info, hasSpanRules, keeps)
      ensures counters == Counted(old(counters), info, spans)
      ensures info.decision == Keep ==> counters == old(counters)
      ensures info.decision != Keep ==>
        && counters.droppedP0Spans == (old(counters).droppedP0Spans + (|info.spans| - |spans|)) % U32
        && counters.droppedP0Traces == (if spans == [] then (old(counters).droppedP0Traces + 1) % U32 else old(counters).droppedP0Traces)
        && counters.partialTraces == (if 0 < |spans| < |info.spans| then (old(counters).partialTraces + 1) % U32 else old(counters).partialTraces)
    {
      if info.decision == Keep {
        return info.spans;
      }
      var kept: seq<S> := [];
      if hasSpanRules {
        var i := 0;
        while i < |info.spans|
          invariant 0 <= i <= |info.spans|
          invariant kept == Selected(info.spans[..i], keeps)
          invariant counters == old(counters)
        {
          assert info.spans[..i + 1][..i] == info.spans[..i];
          if keeps(i) {
            kept := kept + [info.spans[i]];
          }
          i := i + 1;
        }
        assert info.spans[..i] == info.spans;
        if |kept| > 0 && |kept| < |info.spans| {
          counters := counters.(partialTraces := Wrap32(counters.partialTraces + 1));
        }
      }
      if |kept| == 0 {
        counters := counters.(droppedP0Traces := Wrap32(counters.droppedP0Traces + 1));
      }
      counters := counters.(droppedP0Spans := Wrap32(counters.droppedP0Spans + (|info.spans| - |kept|)));
      return kept;
    }

    /** The worker's last loop: it ends only with an empty queue, having taken every chunk in order. */
    method Drain(keeps: nat -> nat -> bool)
      modifies this
      ensures out == [] && stopped == old(stopped)
      ensures written == old(written) + Handed(old(out), hasSpanRules, keeps)
    {
      hide Kept, Counted;
      ghost var all := out;
      var n := 0;
      assert all[0..] == all;
      while out != []
        invariant n <= |all| && out == all[n..] && stopped == old(stopped)
        invariant written == old(written) + Handed(all[..n], hasSpanRules, keeps)
        decreases |out|
      {
        assert all[..n + 1][..n] == all[..n];
        var trace := out[0];
        out := out[1..];
        var spans := SampleFinishedTrace(trace, keeps(n));
        if |spans| != 0 {
          written := written + [spans];
        }
        n := n + 1;
      }
      assert all[..n] == all;
    }
  }
}
