/**
 Every run of many goroutines on one trace: spans are created, pushed, tagged, given
 priorities and finished, one step per region that a lock (or one atomic instruction)
 makes indivisible.  A span's own lock is held from the first to the last step of
 setting its priority and of finishing it, which the phases express.
 */
module TraceRuns {
  import opened Common
  import opened TraceModel
  import opened SpanRules

  type SpanId = nat

  datatype Phase =
    | Created                            // known to its creator only, not yet pushed
    | Idle                               // its lock is free
    | Prioritizing(p: int, sampler: int) // metric written, trace priority still to be set
    | Deciding                           // marked finished, keep still to be called
    | Acknowledging                      // finishedOne still to be called

  /** A completed buffer, whether a tracer was there to take it, and how many verdicts preceded it. */
  datatype Completion = Completion(chunk: Chunk<SpanId>, delivered: bool, seen: nat)

  /** The trace's tags at one moment. */
  datatype Stamp = Stamp(tags: map<string, string>, propagatingTags: map<string, string>)

  /**
   The trace and its spans, followed by the history of the run: `settings` are those the lock did not
   refuse, `sealed` the trace's tags as they were when the first span of each buffer was acknowledged.
   */
  datatype System = System(
    trace: TraceState<SpanId>,
    data: map<SpanId, SpanData>,
    phase: map<SpanId, Phase>,
    accepted: seq<SpanId>,
    acked: set<SpanId>,
    completed: seq<Completion>,
    settings: seq<Setting>,
    verdicts: seq<Decision>,
    keepers: set<SpanId>,
    sealed: map<SpanId, Stamp>)

  datatype Action =
    | Create(s: SpanId, data: SpanData)
    | PushSpan(s: SpanId)
    | BeginPriority(s: SpanId, p: int, sampler: int)
    | EndPriority(s: SpanId)
    | MarkFinished(s: SpanId)
    | CallKeep(s: SpanId, finishing: Finishing)
    | Acknowledge(s: SpanId, tracer: bool)
    | DropTrace
    | TagMeta(s: SpanId, k: string, v: string)
    | TagMetric(s: SpanId, k: string, value: int)
    | TagError(s: SpanId, yes: bool)
    | SetUser(id: string, propagate: bool)
    | RecordError(reason: string)
    | SampleSpan(s: SpanId, rules: seq<Rule>, draw: Draw) // by the worker, on a span it was handed

  function Chunks(completed: seq<Completion>): seq<seq<SpanId>> {
    seq(|completed|, i requires 0 <= i < |completed| => completed[i].chunk.spans)
  }

  /** All spans that left the buffer in a completed chunk, in order. */
  function Released(y: System): seq<SpanId> { Flatten(Chunks(y.completed)) }

  predicate In(y: System, s: SpanId, ph: Phase) {
    s in y.phase && s in y.data && y.phase[s] == ph
  }

  /** The span that finishes with this step asks for its trace to be kept. */
  predicate Asks(y: System, a: Action) {
    a.CallKeep? && a.s in y.data && AsksKeep(y.trace.priority, a.finishing, y.data[a.s])
  }

  predicate Enabled(y: System, a: Action) {
    match a
    case Create(s, d) => s !in y.phase && !d.finished
    case PushSpan(s) => In(y, s, Created)
    case BeginPriority(s, p, sampler) => In(y, s, Idle)
    case EndPriority(s) => s in y.phase && s in y.data && y.phase[s].Prioritizing?
    case MarkFinished(s) => In(y, s, Idle)
    case CallKeep(s, f) => In(y, s, Deciding)
    case Acknowledge(s, tracer) => In(y, s, Acknowledging)
    case DropTrace => true
    case TagMeta(s, k, v) => In(y, s, Idle)
    case TagMetric(s, k, v) => In(y, s, Idle)
    case TagError(s, yes) => In(y, s, Idle)
    case SetUser(id, propagate) => y.trace.root.Some? && In(y, y.trace.root.value, Idle)
    case RecordError(reason) => true
    case SampleSpan(s, rules, draw) => In(y, s, Idle) && s in Released(y)
  }

  function Prioritize(y: System, p: int, sampler: int): System {
    y.(trace := SetSamplingPriority(y.trace, p, sampler),
       settings := if y.trace.locked then y.settings else y.settings + [Setting(p, sampler)])
  }

  function Call(y: System, verdict: Decision): System {
    y.(trace := Decide(y.trace, verdict), verdicts := y.verdicts + [verdict])
  }

  /** The priority a span brings along when it is pushed. */
  function InheritedPriority(d: SpanData): Option<int> {
    if KEY_SAMPLING_PRIORITY in d.metrics then Some(d.metrics[KEY_SAMPLING_PRIORITY]) else None
  }

  function Accept(y: System, s: SpanId): System
    requires s in y.data
  {
    var t, inherited := y.trace, InheritedPriority(y.data[s]);
    var room := !t.full && |t.spans| < TRACE_MAX_SIZE;
    y.(trace := Push(t, s, inherited),
       accepted := if room then y.accepted + [s] else y.accepted,
       settings := if room && inherited.Some? && !t.locked
                   then y.settings + [Setting(inherited.value, SAMPLER_UNKNOWN)] else y.settings)
  }

  function Finished(y: System, s: SpanId, tracer: bool): System
    requires s in y.data
  {
    var t := y.trace;
    y.(trace := FinishedOne(t, s),
       data := y.data[s := Seal(t, s, y.data[s])],
       acked := y.acked + {s},
       completed := if Completes(t)
                    then y.completed + [Completion(Chunk(t.spans, t.decision), tracer, |y.verdicts|)]
                    else y.completed,
       sealed := if Heads(t, s) then y.sealed[s := Stamp(t.tags, t.propagatingTags)] else y.sealed)
  }

  /** `s` is the first span of the buffer. */
  predicate Heads(t: TraceState<SpanId>, s: SpanId) { !t.full && |t.spans| > 0 && t.spans[0] == s }

  function Step(y: System, a: Action): System
    requires Enabled(y, a)
  {
    match a
    case Create(s, d) =>
      y.(phase := y.phase[s := Created], data := y.data[s := d],
         trace := if y.trace.root.None? then y.trace.(root := Some(s)) else y.trace)
    case PushSpan(s) => Accept(y, s).(phase := y.phase[s := Idle])
    case BeginPriority(s, p, sampler) =>
      if y.data[s].finished then y
      else y.(phase := y.phase[s := Prioritizing(p, sampler)],
              data := y.data[s := SetMetric(y.data[s], KEY_SAMPLING_PRIORITY, p)])
    case EndPriority(s) =>
      Prioritize(y, y.phase[s].p, y.phase[s].sampler).(phase := y.phase[s := Idle])
    case MarkFinished(s) =>
      if y.data[s].finished then y
      else y.(phase := y.phase[s := Deciding], data := y.data[s := y.data[s].(finished := true)])
    case CallKeep(s, f) =>
      (if AsksKeep(y.trace.priority, f, y.data[s]) then Call(y, Keep).(keepers := y.keepers + {s}) else y)
      .(phase := y.phase[s := Acknowledging])
    case Acknowledge(s, tracer) => Finished(y, s, tracer).(phase := y.phase[s := Idle])
    case DropTrace => Call(y, Drop)
    case TagMeta(s, k, v) =>
      if y.data[s].finished then y else y.(data := y.data[s := SetMeta(y.data[s], k, v)])
    case TagMetric(s, k, v) =>
      if y.data[s].finished then y
      else
        var x := Redirect(k, v);
        y.(data := y.data[s := TraceModel.TagMetric(y.data[s], k, v)],
           phase := y.phase[s := if x.Some? then Prioritizing(x.value.p, x.value.sampler) else Idle])
    case TagError(s, yes) =>
      if y.data[s].finished then y else y.(data := y.data[s := SetError(y.data[s], yes)])
    case SetUser(id, propagate) =>
      var r := y.trace.root.value;
      y.(trace := SetUserTags(y.trace, id, propagate),
         data := y.data[r := SetUserData(y.data[r], id, propagate)])
    case RecordError(reason) =>
      y.(trace := y.trace.(tags := y.trace.tags[KEY_PROPAGATION_ERROR := reason]))
    case SampleSpan(s, rules, draw) => SampleOne(y, s, rules, draw)
  }

  function SampleOne(y: System, s: SpanId, rules: seq<Rule>, draw: Draw): System
    requires s in y.data
  {
    var d := y.data[s];
    var x, p := Apply(y.trace, d, rules, draw.id, draw.answer), Asked(d, rules, draw.id, draw.answer);
    y.(trace := x.trace, data := y.data[s := x.data],
       settings := if p.Some? && !d.finished && !y.trace.locked
                   then y.settings + [Setting(p.value, SAMPLER_RULE_RATE)] else y.settings)
  }

  /** Sampling a span can set the priority, like any other setter, and writes nothing else but that span's data. */
  lemma SampleFrame(y: System, s: SpanId, rules: seq<Rule>, draw: Draw)
    requires s in y.data
    ensures var z, p := SampleOne(y, s, rules, draw), Asked(y.data[s], rules, draw.id, draw.answer);
      && z == y.(trace := z.trace, data := z.data, settings := z.settings)
      && s in z.data && z.data == y.data[s := z.data[s]] && z.data[s].finished == y.data[s].finished
      && z.data[s].error == y.data[s].error && z.data[s].errors == y.data[s].errors
      && z.trace == y.trace.(priority := z.trace.priority, propagatingTags := z.trace.propagatingTags)
      && (p.None? || y.data[s].finished || y.trace.locked ==> z.trace == y.trace && z.settings == y.settings)
      && (p.Some? && !y.data[s].finished && !y.trace.locked ==>
            z.settings == y.settings + [Setting(p.value, SAMPLER_RULE_RATE)]
            && z.trace == SetSamplingPriority(y.trace, p.value, SAMPLER_RULE_RATE))
  {
    hide Apply, Asked;
    ApplySets(y.trace, y.data[s], rules, draw.id, draw.answer);
  }

  /** A trace before its first span: new, or just extracted from a carrier. */
  predicate Fresh(t: TraceState<SpanId>) {
    t.spans == [] && t.finished == 0 && !t.full && !t.locked && t.decision == Undecided && t.root == None
  }

  function Start(t: TraceState<SpanId>): System {
    System(t, map[], map[], [], {}, [], [], [], {}, map[])
  }

  predicate Runs(y: System, actions: seq<Action>)
    decreases |actions|
  {
    actions == [] || (Enabled(y, actions[0]) && Runs(Step(y, actions[0]), actions[1..]))
  }

  function After(y: System, actions: seq<Action>): System
    requires Runs(y, actions)
    decreases |actions|
  {
    if actions == [] then y else After(Step(y, actions[0]), actions[1..])
  }

  // ---------- The buffer ----------

  function CountIn(spans: seq<SpanId>, s: set<SpanId>): nat {
    if spans == [] then 0 else CountIn(spans[..|spans| - 1], s) + (if spans[|spans| - 1] in s then 1 else 0)
  }

  ghost predicate SpanInv(y: System) {
    && y.data.Keys == y.phase.Keys
    && y.acked <= y.phase.Keys
    && (forall s :: s in y.phase ==> y.trace.root.Some?)
    && (forall s :: s in y.phase ==> PhaseInv(y, s))
    && Distinct(y.accepted)
    && (forall s :: s in y.accepted ==> s in y.phase && y.phase[s] != Created)
  }

  ghost predicate PhaseInv(y: System, s: SpanId)
    requires s in y.phase && y.data.Keys == y.phase.Keys
  {
    && (s in y.acked ==> y.phase[s] == Idle)
    && (y.data[s].finished <==> s in y.acked || y.phase[s] == Deciding || y.phase[s] == Acknowledging)
    && (y.phase[s] != Created && !y.trace.full ==> s in y.accepted)
  }

  ghost predicate BufferInv(y: System) {
    var t := y.trace;
    && |t.spans| <= TRACE_MAX_SIZE
    && (t.full ==> t.spans == [] && Released(y) <= y.accepted)
    && (!t.full ==>
          && y.accepted == Released(y) + t.spans
          && t.finished == CountIn(t.spans, y.acked)
          && (t.finished < |t.spans| || (t.finished == 0 && |t.spans| == 0)))
    && (forall s :: s in Released(y) ==> s in y.acked)
  }

  predicate SameBuffer(y: System, z: System) {
    && z.trace.spans == y.trace.spans && z.trace.finished == y.trace.finished && z.trace.full == y.trace.full
    && z.accepted == y.accepted && z.acked == y.acked && z.completed == y.completed
  }

  lemma {:induction false} CountAdd(spans: seq<SpanId>, acked: set<SpanId>, s: SpanId)
    requires Distinct(spans) && s !in acked
    ensures CountIn(spans, acked + {s}) == CountIn(spans, acked) + (if s in spans then 1 else 0)
  {
    if spans != [] {
      CountAdd(spans[..|spans| - 1], acked, s);
      assert s in spans <==> s in spans[..|spans| - 1] || s == spans[|spans| - 1];
    }
  }

  lemma {:induction false} CountAll(spans: seq<SpanId>, acked: set<SpanId>)
    ensures CountIn(spans, acked) <= |spans|
    ensures CountIn(spans, acked) == |spans| ==> forall s :: s in spans ==> s in acked
  {
    if spans != [] {
      CountAll(spans[..|spans| - 1], acked);
      assert forall s :: s in spans ==> s in spans[..|spans| - 1] || s == spans[|spans| - 1];
    }
  }

  lemma ReleasedSnoc(y: System, c: Completion)
    ensures Flatten(Chunks(y.completed + [c])) == Released(y) + c.chunk.spans
  {
    assert Chunks(y.completed + [c]) == Chunks(y.completed) + [c.chunk.spans];
    FlattenSnoc(Chunks(y.completed), c.chunk.spans);
  }

  /** A step that touches one known span only. */
  lemma TouchOne(y: System, z: System, s: SpanId)
    requires SpanInv(y) && s in y.phase && s in z.phase && s in z.data
    requires z.phase == y.phase[s := z.phase[s]] && z.data == y.data[s := z.data[s]]
    requires z.acked == y.acked && z.accepted == y.accepted && z.trace.full == y.trace.full && z.trace.root == y.trace.root
    requires s in y.accepted ==> z.phase[s] != Created
    requires PhaseInv(z, s)
    ensures SpanInv(z)
  {
    assert z.data.Keys == z.phase.Keys == y.phase.Keys;
    forall r | r in z.phase ensures PhaseInv(z, r) {
      if r != s {
        assert PhaseInv(y, r);
      }
    }
  }

  lemma PushKeepsSpans(y: System, s: SpanId)
    requires SpanInv(y) && In(y, s, Created)
    ensures SpanInv(Step(y, PushSpan(s)))
  {
    hide Push, InheritedPriority;
    var z := Step(y, PushSpan(s));
    PushRoot(y.trace, s, InheritedPriority(y.data[s]));
    assert PhaseInv(y, s) && s !in y.accepted;
    forall r | r in z.phase ensures PhaseInv(z, r) {
      assert PhaseInv(y, r);
    }
  }

  lemma PushRoot(t: TraceState<SpanId>, s: SpanId, inherited: Option<int>)
    ensures var u := Push(t, s, inherited);
      && u.root == t.root && u.finished == t.finished && u.locked == t.locked && u.decision == t.decision && u.tags == t.tags
      && u.full == (t.full || |t.spans| >= TRACE_MAX_SIZE)
      && u.spans == (if t.full then t.spans else if |t.spans| >= TRACE_MAX_SIZE then [] else t.spans + [s])
  {
  }

  lemma CountSnoc(spans: seq<SpanId>, acked: set<SpanId>, s: SpanId)
    requires s !in acked
    ensures CountIn(spans + [s], acked) == CountIn(spans, acked)
  {
    assert (spans + [s])[..|spans|] == spans;
  }

  lemma PushKeepsBuffer(y: System, s: SpanId)
    requires BufferInv(y) && In(y, s, Created)
    requires s !in y.acked
    ensures BufferInv(Step(y, PushSpan(s)))
  {
    hide Push, InheritedPriority, CountIn, Flatten;
    var z, t := Step(y, PushSpan(s)), y.trace;
    PushRoot(t, s, InheritedPriority(y.data[s]));
    assert Released(z) == Released(y);
    if !t.full && |t.spans| < TRACE_MAX_SIZE {
      CountSnoc(t.spans, y.acked, s);
      CountAll(t.spans, y.acked);
      assert z.accepted == Released(y) + z.trace.spans;
    }
  }

  lemma AcknowledgeKeepsSpans(y: System, s: SpanId, tracer: bool)
    requires SpanInv(y) && In(y, s, Acknowledging)
    ensures SpanInv(Step(y, Acknowledge(s, tracer)))
  {
    hide Seal;
    var z := Step(y, Acknowledge(s, tracer));
    SealKeepsFinished(y.trace, s, y.data[s]);
    forall r | r in z.phase ensures PhaseInv(z, r) {
      assert PhaseInv(y, r);
    }
  }

  lemma SealKeepsFinished(t: TraceState<SpanId>, s: SpanId, d: SpanData)
    ensures Seal(t, s, d).finished == d.finished
  {
  }

  lemma AcknowledgeKeepsBuffer(y: System, s: SpanId, tracer: bool)
    requires BufferInv(y) && In(y, s, Acknowledging)
    requires s !in y.acked && Distinct(y.accepted) && (!y.trace.full ==> s in y.accepted)
    ensures BufferInv(Step(y, Acknowledge(s, tracer)))
  {
    var z, t := Step(y, Acknowledge(s, tracer)), y.trace;
    if !t.full {
      assert s in t.spans;
      DistinctParts(Released(y), t.spans);
      CountAdd(t.spans, y.acked, s);
      CountAll(t.spans, z.acked);
      if Completes(t) {
        ReleasedSnoc(y, Completion(Chunk(t.spans, t.decision), tracer, |y.verdicts|));
      }
    }
  }

  lemma CreateKeepsSpans(y: System, s: SpanId, d: SpanData)
    requires SpanInv(y) && Enabled(y, Create(s, d))
    ensures SpanInv(Step(y, Create(s, d)))
  {
    var z := Step(y, Create(s, d));
    assert s !in y.accepted && s !in y.acked;
    forall r | r in z.phase ensures PhaseInv(z, r) {
      if r != s {
        assert PhaseInv(y, r);
      }
    }
  }

  /** The steps that only touch the trace's own tags and priority. */
  lemma TraceStepKeepsSpans(y: System, z: System)
    requires SpanInv(y) && z.phase == y.phase && z.data == y.data
    requires z.acked == y.acked && z.accepted == y.accepted && z.trace.full == y.trace.full && z.trace.root == y.trace.root
    ensures SpanInv(z)
  {
    forall r | r in z.phase ensures PhaseInv(z, r) {
      assert PhaseInv(y, r);
    }
  }

  /** The span a step is about, when it changes nothing of any other span. */
  function Subject(y: System, a: Action): Option<SpanId> {
    match a
    case BeginPriority(s, _, _) => Some(s)
    case EndPriority(s) => Some(s)
    case MarkFinished(s) => Some(s)
    case CallKeep(s, _) => Some(s)
    case TagMeta(s, _, _) => Some(s)
    case TagMetric(s, _, _) => Some(s)
    case TagError(s, _) => Some(s)
    case SetUser(_, _) => y.trace.root
    case SampleSpan(s, _, _) => Some(s)
    case _ => None
  }

  /** Only `s` and the trace's tags, priority and decision may differ. */
  ghost predicate OnlySpan(y: System, z: System, s: SpanId) {
    && s in y.phase && s in y.data && s in z.phase && s in z.data
    && z.phase == y.phase[s := z.phase[s]] && z.data == y.data[s := z.data[s]]
    && z.acked == y.acked && z.accepted == y.accepted && z.completed == y.completed && z.sealed == y.sealed
    && z.trace.spans == y.trace.spans && z.trace.finished == y.trace.finished && z.trace.full == y.trace.full
    && z.trace.root == y.trace.root && z.trace.locked == y.trace.locked
  }

  predicate Writes(a: Action) { a.BeginPriority? || a.MarkFinished? || a.TagMeta? || a.TagMetric? || a.TagError? }

  lemma WriterFrame(y: System, a: Action)
    requires Enabled(y, a) && Writes(a)
    ensures OnlySpan(y, Step(y, a), a.s) && Step(y, a).trace == y.trace
  {
    hide TraceModel.SetMeta, SetMetric, TraceModel.TagMetric, SetError;
  }

  lemma SetterFrame(y: System, a: Action)
    requires Enabled(y, a) && (a.EndPriority? || a.CallKeep?)
    ensures OnlySpan(y, Step(y, a), a.s)
  {
    hide SetSamplingPriority, AsksKeep;
    PrioritySetterFrame(y.trace);
  }

  lemma UserFrame(y: System, a: Action)
    requires Enabled(y, a) && a.SetUser?
    ensures OnlySpan(y, Step(y, a), y.trace.root.value)
  {
    hide SetUserData;
  }

  lemma SubjectFrame(y: System, a: Action)
    requires Enabled(y, a) && Subject(y, a).Some?
    ensures OnlySpan(y, Step(y, a), Subject(y, a).value)
  {
    if Writes(a) {
      WriterFrame(y, a);
    } else if a.EndPriority? || a.CallKeep? {
      SetterFrame(y, a);
    } else if a.SetUser? {
      UserFrame(y, a);
    } else {
      hide Released, SampleOne;
      SampleFrame(y, a.s, a.rules, a.draw);
    }
    hide Step, Enabled, OnlySpan;
  }

  /** How a step changes the phase of its span, and whether it is finished. */
  lemma SubjectPhase(y: System, a: Action)
    requires Enabled(y, a) && Subject(y, a).Some?
    ensures var z, s := Step(y, a), Subject(y, a).value;
      && s in y.phase && s in y.data && s in z.phase && s in z.data
      && z.data[s].finished == (a.MarkFinished? || y.data[s].finished)
      && (if a.MarkFinished? && !y.data[s].finished then y.phase[s] == Idle && z.phase[s] == Deciding
          else if a.CallKeep? then y.phase[s] == Deciding && z.phase[s] == Acknowledging
          else (y.phase[s] == Idle || y.phase[s].Prioritizing?)
               && (z.phase[s] == Idle || (z.phase[s].Prioritizing? && !y.data[s].finished) || z.phase[s] == y.phase[s]))
  {
    hide Released, SampleOne, SetSamplingPriority, FIELD_KEYS, AsksKeep;
    if a.SampleSpan? {
      SampleFrame(y, a.s, a.rules, a.draw);
    }
  }

  lemma SubjectKeepsSpans(y: System, a: Action)
    requires SpanInv(y) && Enabled(y, a) && Subject(y, a).Some?
    ensures SpanInv(Step(y, a))
  {
    hide Step, Enabled, SpanInv;
    SubjectFrame(y, a);
    SubjectPhase(y, a);
    var s := Subject(y, a).value;
    SpanInvAt(y, s);
    TouchOne(y, Step(y, a), s);
  }

  /** The two steps that concern the trace only. */
  lemma TraceStepFrame(y: System, a: Action)
    requires Enabled(y, a) && (a.DropTrace? || a.RecordError?)
    ensures var z := Step(y, a);
      && z.phase == y.phase && z.data == y.data && z.acked == y.acked && z.accepted == y.accepted
      && z.completed == y.completed && z.sealed == y.sealed && z.trace.spans == y.trace.spans
      && z.trace.finished == y.trace.finished && z.trace.full == y.trace.full && z.trace.root == y.trace.root
  {
  }

  lemma OtherStepsKeepSpans(y: System, a: Action)
    requires SpanInv(y) && Enabled(y, a) && !a.PushSpan? && !a.Acknowledge?
    ensures SpanInv(Step(y, a))
  {
    hide Step, Enabled, SpanInv;
    if a.Create? {
      CreateKeepsSpans(y, a.s, a.data);
    } else if a.DropTrace? || a.RecordError? {
      TraceStepFrame(y, a);
      TraceStepKeepsSpans(y, Step(y, a));
    } else {
      SubjectOf(y, a);
      SubjectKeepsSpans(y, a);
    }
  }

  lemma SubjectOf(y: System, a: Action)
    requires Enabled(y, a) && !a.Create? && !a.PushSpan? && !a.Acknowledge? && !a.DropTrace? && !a.RecordError?
    ensures Subject(y, a).Some?
  {
  }

  lemma SpanInvAt(y: System, s: SpanId)
    requires SpanInv(y) && s in y.phase
    ensures y.data.Keys == y.phase.Keys && PhaseInv(y, s)
    ensures s in y.accepted ==> y.phase[s] != Created
  {
  }

  lemma PrioritySetterFrame(t: TraceState<SpanId>)
    ensures forall p, sampler :: var u := SetSamplingPriority(t, p, sampler);
      u == t.(priority := u.priority, propagatingTags := u.propagatingTags)
  {
  }

  lemma OtherStepsKeepBuffer(y: System, a: Action)
    requires Enabled(y, a) && !a.PushSpan? && !a.Acknowledge?
    ensures SameBuffer(y, Step(y, a))
  {
    if Subject(y, a).Some? {
      SubjectFrame(y, a);
      hide Step;
    }
  }

  lemma BufferFrame(y: System, z: System)
    requires BufferInv(y) && SameBuffer(y, z)
    ensures BufferInv(z)
  {}

  lemma StepKeepsBuffer(y: System, a: Action)
    requires SpanInv(y) && BufferInv(y) && Enabled(y, a)
    ensures SpanInv(Step(y, a)) && BufferInv(Step(y, a))
  {
    if a.PushSpan? {
      SpanInvAt(y, a.s);
      PushKeepsSpans(y, a.s);
      PushKeepsBuffer(y, a.s);
    } else if a.Acknowledge? {
      SpanInvAt(y, a.s);
      AcknowledgeKeepsSpans(y, a.s, a.tracer);
      AcknowledgeKeepsBuffer(y, a.s, a.tracer);
    } else {
      OtherStepsKeepSpans(y, a);
      OtherStepsKeepBuffer(y, a);
      BufferFrame(y, Step(y, a));
    }
  }

  /** The buffer invariant holds after every run, from every fresh trace. */
  lemma {:induction false} BufferAlways(y: System, actions: seq<Action>)
    requires SpanInv(y) && BufferInv(y) && Runs(y, actions)
    ensures SpanInv(After(y, actions)) && BufferInv(After(y, actions))
    decreases |actions|
  {
    if actions != [] {
      StepKeepsBuffer(y, actions[0]);
      BufferAlways(Step(y, actions[0]), actions[1..]);
    }
  }

  lemma {:induction false} OneChunk(xss: seq<seq<SpanId>>, i: nat, j: nat, s: SpanId)
    requires Distinct(Flatten(xss)) && i < j < |xss| && s in xss[i]
    ensures s !in xss[j]
  {
    DistinctParts(xss[0], Flatten(xss[1..]));
    if i == 0 {
      FlattenMember(xss[1..], s);
      assert xss[1..][j - 1] == xss[j];
    } else {
      OneChunk(xss[1..], i - 1, j - 1, s);
    }
  }

  ghost predicate InChunk(y: System, i: int, s: SpanId) {
    0 <= i < |y.completed| && s in y.completed[i].chunk.spans
  }

  /**
   The life of every span: while the trace is not full, an accepted span is either still
   buffered or in exactly one completed chunk; a chunk holds finished spans only; and the
   counter is the number of buffered spans already acknowledged, short of the whole buffer.
   */
  lemma EverySpanOnce(t: TraceState<SpanId>, actions: seq<Action>, s: SpanId)
    requires Fresh(t) && Runs(Start(t), actions)
    ensures var y := After(Start(t), actions);
      && (!y.trace.full ==> y.trace.finished == CountIn(y.trace.spans, y.acked))
      && (!y.trace.full ==> y.trace.finished < |y.trace.spans| || (y.trace.finished == 0 && y.trace.spans == []))
      && (forall i, j :: InChunk(y, i, s) && InChunk(y, j, s) ==> i == j)
      && (!y.trace.full ==> (s in y.accepted <==> s in y.trace.spans || exists i :: InChunk(y, i, s)))
      && (forall i :: InChunk(y, i, s) ==> s in y.accepted && s in y.data && y.data[s].finished && s !in y.trace.spans)
  {
    hide Runs, After, Released, Distinct, SpanInv;
    StartKeeps(t);
    BufferAlways(Start(t), actions);
    var y := After(Start(t), actions);
    ChunkMember(y, s);
    forall i, j | InChunk(y, i, s) && InChunk(y, j, s) ensures i == j {
      OnlyOneChunk(y, s, i, j);
    }
    if s in Released(y) {
      ReleasedIsAcked(y, s);
      ReleasedIsGone(y, s);
    }
  }

  lemma StartKeeps(t: TraceState<SpanId>)
    requires Fresh(t)
    ensures SpanInv(Start(t)) && BufferInv(Start(t))
  {
  }

  lemma ChunkMember(y: System, s: SpanId)
    ensures s in Released(y) <==> exists i :: InChunk(y, i, s)
  {
    var xss := Chunks(y.completed);
    FlattenMember(xss, s);
    assert forall i :: InChunk(y, i, s) <==> 0 <= i < |xss| && s in xss[i];
  }

  lemma ReleasedIsGone(y: System, s: SpanId)
    requires SpanInv(y) && BufferInv(y)
    ensures Distinct(Released(y)) && (s in Released(y) ==> s in y.accepted && s !in y.trace.spans)
  {
    hide Released, CountIn, PhaseInv;
    var rest := y.accepted[|Released(y)|..];
    assert y.accepted == Released(y) + rest;
    DistinctParts(Released(y), rest);
    assert !y.trace.full ==> rest == y.trace.spans;
  }

  lemma OnlyOneChunk(y: System, s: SpanId, i: int, j: int)
    requires SpanInv(y) && BufferInv(y) && InChunk(y, i, s) && InChunk(y, j, s)
    ensures i == j
  {
    ReleasedIsGone(y, s);
    hide SpanInv, BufferInv, Flatten, Distinct;
    var xss := Chunks(y.completed);
    if i < j { OneChunk(xss, i, j, s); }
    if j < i { OneChunk(xss, j, i, s); }
  }

  /** Nothing is left behind: once every span of a trace that never filled up has finished, all were released in push order. */
  lemma AllReleasedWhenAllFinished(t: TraceState<SpanId>, actions: seq<Action>)
    requires Fresh(t) && Runs(Start(t), actions)
    ensures var y := After(Start(t), actions);
      !y.trace.full && (forall s :: s in y.accepted ==> s in y.acked) ==> y.trace.spans == [] && Released(y) == y.accepted
  {
    BufferAlways(Start(t), actions);
    var y := After(Start(t), actions);
    if !y.trace.full && (forall s :: s in y.accepted ==> s in y.acked) {
      CountEvery(y.trace.spans, y.acked);
    }
  }

  lemma {:induction false} CountEvery(spans: seq<SpanId>, acked: set<SpanId>)
    requires forall s :: s in spans ==> s in acked
    ensures CountIn(spans, acked) == |spans|
  {
    if spans != [] {
      CountEvery(spans[..|spans| - 1], acked);
    }
  }

  lemma FullStep(y: System, a: Action)
    requires y.trace.full && y.trace.spans == [] && Enabled(y, a)
    ensures var z := Step(y, a);
      z.trace.full && z.trace.spans == [] && z.completed == y.completed && z.accepted == y.accepted
  {
    if Subject(y, a).Some? {
      SubjectFrame(y, a);
      hide Step;
    }
  }

  /** Overflow is final: from then on nothing is buffered and nothing is ever flushed again. */
  lemma {:induction false} FullIsFinal(y: System, actions: seq<Action>)
    requires y.trace.full && y.trace.spans == [] && Runs(y, actions)
    ensures var z := After(y, actions);
      z.trace.full && z.trace.spans == [] && z.completed == y.completed && z.accepted == y.accepted
    decreases |actions|
  {
    if actions != [] {
      FullStep(y, actions[0]);
      FullIsFinal(Step(y, actions[0]), actions[1..]);
    }
  }

  lemma ReleasedGrows(y: System, a: Action)
    requires Enabled(y, a)
    ensures Released(y) <= Released(Step(y, a))
  {
    var z := Step(y, a);
    if a.Acknowledge? && Completes(y.trace) {
      ReleasedSnoc(y, z.completed[|y.completed|]);
    } else {
      assert z.completed == y.completed;
    }
  }

  const USER_KEYS: set<string> := {KEY_USER_ID, KEY_PROPAGATED_USER_ID}

  /** What a step may still write on an acknowledged span: the user on the root, and the marks of single-span sampling. */
  function Writable(y: System, a: Action, s: SpanId): set<string> {
    if a.SetUser? && y.trace.root == Some(s) then USER_KEYS
    else if a.SampleSpan? && a.s == s then MARKS
    else {}
  }

  /** Pushing, creating and acknowledging other spans leaves a span and the root alone. */
  lemma OthersLeave(y: System, a: Action, s: SpanId)
    requires SpanInv(y) && Enabled(y, a) && s in y.data && (a.Create? || a.PushSpan? || a.Acknowledge?) && a.s != s
    ensures s in Step(y, a).data && Step(y, a).data[s] == y.data[s] && Step(y, a).trace.root == y.trace.root
  {
    hide Seal, Push, InheritedPriority, PhaseInv;
    if a.PushSpan? {
      PushRoot(y.trace, a.s, InheritedPriority(y.data[a.s]));
    }
  }

  /** Of the span with an idle lock that a step is about, only the writable keys change once it has finished. */
  lemma SubjectLeaves(y: System, a: Action, s: SpanId)
    requires Enabled(y, a) && Subject(y, a) == Some(s) && s in y.data && y.data[s].finished
    ensures s in Step(y, a).data && OnlyTouched(y.data[s], Step(y, a).data[s], Writable(y, a, s))
    ensures Writable(y, a, s) == {} ==> Step(y, a).data[s] == y.data[s]
  {
    TouchedNothing(y.data[s]);
    if a.SetUser? {
      UserTouches(y.data[s], a.id, a.propagate);
      hide OnlyTouched, SetUserData;
    } else if a.SampleSpan? {
      SamplingMarks(y, s, a.rules, a.draw);
      hide OnlyTouched, SampleOne;
    } else {
      WritersSpareFinished(y, a);
      hide OnlyTouched, Step;
    }
  }

  lemma StepLeavesAcknowledged(y: System, a: Action, s: SpanId)
    requires SpanInv(y) && Enabled(y, a) && s in y.acked
    ensures s in y.data && s in Step(y, a).data && OnlyTouched(y.data[s], Step(y, a).data[s], Writable(y, a, s))
    ensures Writable(y, a, s) == {} ==> Step(y, a).data[s] == y.data[s]
    ensures Step(y, a).trace.root == y.trace.root
  {
    hide Step, Enabled, SpanInv, Subject, OnlyTouched, MARKS, USER_KEYS;
    AckedIsIdle(y, s);
    TouchedNothing(y.data[s]);
    if a.Create? || a.PushSpan? || a.Acknowledge? {
      BusyIsAnother(y, a, s);
      OthersLeave(y, a, s);
    } else if a.DropTrace? || a.RecordError? {
      TraceStepFrame(y, a);
    } else {
      SubjectOf(y, a);
      SubjectFrame(y, a);
      SubjectIsWritable(y, a, s);
      if Subject(y, a) == Some(s) {
        SubjectLeaves(y, a, s);
      }
    }
  }

  lemma AckedIsIdle(y: System, s: SpanId)
    requires SpanInv(y) && s in y.acked
    ensures s in y.phase && s in y.data && y.phase[s] == Idle && y.data[s].finished
  {
    hide Distinct;
    SpanInvAt(y, s);
  }

  lemma SubjectIsWritable(y: System, a: Action, s: SpanId)
    ensures Subject(y, a) != Some(s) ==> Writable(y, a, s) == {}
  {
    hide MARKS, USER_KEYS;
  }

  lemma BusyIsAnother(y: System, a: Action, s: SpanId)
    requires Enabled(y, a) && s in y.phase && y.phase[s] == Idle && (a.Create? || a.PushSpan? || a.Acknowledge?)
    ensures a.s != s
  {
  }

  lemma TouchedNothing(d: SpanData)
    ensures OnlyTouched(d, d, {})
  {
  }

  lemma UserTouches(d: SpanData, id: string, propagate: bool)
    ensures OnlyTouched(d, SetUserData(d, id, propagate), USER_KEYS)
  {
    var e := SetUserData(d, id, propagate);
    assert KEY_USER_ID !in FIELD_KEYS;
    assert e.meta - USER_KEYS == d.meta - USER_KEYS && e.metrics - USER_KEYS == d.metrics - USER_KEYS;
  }

  lemma SamplingMarks(y: System, s: SpanId, rules: seq<Rule>, draw: Draw)
    requires s in y.data && y.data[s].finished
    ensures var z := SampleOne(y, s, rules, draw); s in z.data && OnlyTouched(y.data[s], z.data[s], MARKS)
  {
    hide Apply, Asked, OnlyTouched, MARKS;
    FinishedSpanKeepsTrace(y.trace, y.data[s], rules, draw.id, draw.answer);
  }

  /** Every other step that writes its own span's data leaves a finished span as it is. */
  lemma WritersSpareFinished(y: System, a: Action)
    requires Enabled(y, a) && Subject(y, a).Some? && !a.SetUser? && !a.SampleSpan?
    ensures var s := Subject(y, a).value;
      s in y.data && s in Step(y, a).data && (y.data[s].finished ==> Step(y, a).data[s] == y.data[s])
  {
    hide SetSamplingPriority, SetMeta, SetMetric, TraceModel.TagMetric, SetError, AsksKeep;
  }

  /** Some step of the run writes `s` under one of the given conditions. */
  predicate Samples(actions: seq<Action>, s: SpanId) {
    exists i :: 0 <= i < |actions| && actions[i].SampleSpan? && actions[i].s == s
  }

  predicate SetsUser(actions: seq<Action>) { exists i :: 0 <= i < |actions| && actions[i].SetUser? }

  /**
   A span that left in a chunk changes only by SetUser on the root, under the two user keys, and by
   single-span sampling, under its four marks; without those steps it does not change at all.
   */
  lemma {:induction false} ReleasedSpansAreImmutable(y: System, actions: seq<Action>, s: SpanId)
    requires SpanInv(y) && BufferInv(y) && Runs(y, actions) && s in Released(y)
    ensures s in y.data && s in After(y, actions).data
    ensures var keys := (if y.trace.root == Some(s) && SetsUser(actions) then USER_KEYS else {})
                        + (if Samples(actions, s) then MARKS else {});
      OnlyTouched(y.data[s], After(y, actions).data[s], keys) && (keys == {} ==> After(y, actions).data[s] == y.data[s])
    decreases |actions|
  {
    hide SpanInv, BufferInv, Enabled, Step, Released, OnlyTouched, MARKS, USER_KEYS;
    ReleasedIsAcked(y, s);
    if actions == [] {
      TouchedNothing(y.data[s]);
      TouchedTwice(y.data[s], y.data[s], y.data[s], {}, {}, {} + {});
    } else {
      var a, z, rest := actions[0], Step(y, actions[0]), actions[1..];
      StepKeepsBuffer(y, a);
      StepLeavesAcknowledged(y, a, s);
      ReleasedGrows(y, a);
      ReleasedSpansAreImmutable(z, rest, s);
      assert forall i :: 0 <= i < |rest| ==> rest[i] == actions[i + 1];
      var keys := (if y.trace.root == Some(s) && SetsUser(actions) then USER_KEYS else {})
                  + (if Samples(actions, s) then MARKS else {});
      var later := (if y.trace.root == Some(s) && SetsUser(rest) then USER_KEYS else {})
                   + (if Samples(rest, s) then MARKS else {});
      assert SetsUser(rest) ==> SetsUser(actions) by { if i :| 0 <= i < |rest| && rest[i].SetUser? { assert actions[i + 1].SetUser?; } }
      assert Samples(rest, s) ==> Samples(actions, s) by {
        if i :| 0 <= i < |rest| && rest[i].SampleSpan? && rest[i].s == s { assert actions[i + 1].s == s; }
      }
      TouchedTwice(y.data[s], z.data[s], After(z, rest).data[s], Writable(y, a, s), later, keys);
    }
  }

  lemma ReleasedIsAcked(y: System, s: SpanId)
    requires SpanInv(y) && BufferInv(y) && s in Released(y)
    ensures s in y.acked && s in y.data && s in y.phase && y.data[s].finished && y.phase[s] == Idle
  {
    hide Released;
    assert s in y.acked;
    SpanInvAt(y, s);
  }

  lemma TouchedTwice(d: SpanData, e: SpanData, f: SpanData, k1: set<string>, k2: set<string>, keys: set<string>)
    requires OnlyTouched(d, e, k1) && OnlyTouched(e, f, k2) && k1 <= keys && k2 <= keys
    ensures OnlyTouched(d, f, keys)
  {
    Widen(d.metrics, e.metrics, k1, keys);
    Widen(e.metrics, f.metrics, k2, keys);
    Widen(d.meta, e.meta, k1, keys);
    Widen(e.meta, f.meta, k2, keys);
  }

  lemma Widen<V>(m: map<string, V>, n: map<string, V>, few: set<string>, many: set<string>)
    requires m - few == n - few && few <= many
    ensures m - many == n - many
  {
    assert m - many == (m - few) - many && n - many == (n - few) - many;
  }

  // ---------- Runs of one span ----------

  lemma {:induction false} RunOn(y: System, actions: seq<Action>, a: Action)
    requires Runs(y, actions) && Enabled(After(y, actions), a)
    ensures Runs(y, actions + [a]) && After(y, actions + [a]) == Step(After(y, actions), a)
    decreases |actions|
  {
    hide Enabled, Step;
    if actions == [] {
      assert [a][1..] == [] && Runs(Step(y, a), []);
      assert [] + [a] == [a];
    } else {
      assert (actions + [a])[1..] == actions[1..] + [a];
      RunOn(Step(y, actions[0]), actions[1..], a);
    }
  }

  lemma RunOnThree(y: System, actions: seq<Action>, a: Action, b: Action, c: Action)
    requires Runs(y, actions) && Enabled(After(y, actions), a) && Enabled(Step(After(y, actions), a), b)
    requires Enabled(Step(Step(After(y, actions), a), b), c)
    ensures Runs(y, actions + [a] + [b] + [c])
    ensures After(y, actions + [a] + [b] + [c]) == Step(Step(Step(After(y, actions), a), b), c)
  {
    hide Runs, After, Step, Enabled;
    RunOn(y, actions, a);
    RunOn(y, actions + [a], b);
    RunOn(y, actions + [a] + [b], c);
  }

  /** A tracer whose agent does not allow dropping. */
  const NO_DROPPING: Finishing := Finishing(Some(false), 0)

  /** The life of a single span: created, pushed, perhaps dropped, finished and acknowledged. */
  function OneSpan(d: SpanData, drop: bool): seq<Action> {
    [] + [Create(0, d)] + [PushSpan(0)] + [if drop then DropTrace else RecordError("")]
    + [MarkFinished(0)] + [CallKeep(0, NO_DROPPING)] + [Acknowledge(0, true)]
  }

  /** The state after a single span was created and pushed. */
  function OneBuffered(d: SpanData, t: TraceState<SpanId>, verdicts: seq<Decision>): System {
    System(t, map[0 := d], map[0 := Idle], [0], {}, [], [], verdicts, {}, map[])
  }

  function OneSpanTrace(drop: bool): TraceState<SpanId> {
    var t := NewTrace().(spans := [0], root := Some(0));
    if drop then t.(decision := Drop) else t.(tags := map[KEY_PROPAGATION_ERROR := ""])
  }

  lemma OneSpanPushed(d: SpanData, drop: bool)
    requires !d.finished && KEY_SAMPLING_PRIORITY !in d.metrics
    ensures var actions := [] + [Create(0, d)] + [PushSpan(0)] + [if drop then DropTrace else RecordError("")];
      && Runs(Start(NewTrace()), actions)
      && After(Start(NewTrace()), actions) == OneBuffered(d, OneSpanTrace(drop), if drop then [Drop] else [])
  {
    hide Runs, After;
    var y := Start(NewTrace());
    RunsNothing(y);
    var a1, a2 := [] + [Create(0, d)], [] + [Create(0, d)] + [PushSpan(0)];
    RunOn(y, [], Create(0, d));
    RunOn(y, a1, PushSpan(0));
    assert After(y, a2) == OneBuffered(d, NewTrace().(spans := [0], root := Some(0)), []);
    RunOn(y, a2, if drop then DropTrace else RecordError(""));
  }

  lemma OneSpanKeeps(d: SpanData, t: TraceState<SpanId>, verdicts: seq<Decision>)
    requires !d.finished
    ensures var y := OneBuffered(d, t, verdicts);
      && Enabled(y, MarkFinished(0)) && Enabled(Step(y, MarkFinished(0)), CallKeep(0, NO_DROPPING))
      && Step(Step(y, MarkFinished(0)), CallKeep(0, NO_DROPPING)) == OneKept(d, t, verdicts)
  {
    hide Step;
    var y := OneBuffered(d, t, verdicts);
    MarkStep(y, 0);
    var m := Step(y, MarkFinished(0));
    assert m == OneBuffered(d.(finished := true), t, verdicts).(phase := map[0 := Deciding]);
    KeepStep(m, 0);
    assert m.keepers + {0} == {0} && m.phase[0 := Acknowledging] == map[0 := Acknowledging];
    hide Enabled, OneBuffered;
  }

  lemma MarkStep(y: System, s: SpanId)
    requires In(y, s, Idle) && !y.data[s].finished
    ensures Step(y, MarkFinished(s)) == y.(phase := y.phase[s := Deciding], data := y.data[s := y.data[s].(finished := true)])
  {
  }

  lemma KeepStep(y: System, s: SpanId)
    requires In(y, s, Deciding)
    ensures Step(y, CallKeep(s, NO_DROPPING))
         == Call(y, Keep).(keepers := y.keepers + {s}, phase := y.phase[s := Acknowledging])
  {
  }

  /** The same state once the span has been marked finished and has asked to be kept. */
  function OneKept(d: SpanData, t: TraceState<SpanId>, verdicts: seq<Decision>): System {
    System(Decide(t, Keep), map[0 := d.(finished := true)], map[0 := Acknowledging], [0], {}, [], [], verdicts + [Keep], {0}, map[])
  }

  lemma OneSpanLeaves(d: SpanData, t: TraceState<SpanId>, verdicts: seq<Decision>)
    requires t.spans == [0] && t.finished == 0 && !t.full
    ensures var z := OneKept(d, t, verdicts);
      && Enabled(z, Acknowledge(0, true))
      && var w := Step(z, Acknowledge(0, true));
         && w.completed == [Completion(Chunk([0], Decide(t, Keep).decision), true, |verdicts| + 1)]
         && 0 in w.keepers && w.trace.root == t.root
  {
    hide Seal;
  }

  lemma OneSpanRuns(d: SpanData, drop: bool)
    requires !d.finished && KEY_SAMPLING_PRIORITY !in d.metrics
    ensures Runs(Start(NewTrace()), OneSpan(d, drop))
    ensures var z := After(Start(NewTrace()), OneSpan(d, drop));
      && z.completed == [Completion(Chunk([0], if drop then Drop else Keep), true, if drop then 2 else 1)]
      && 0 in z.keepers && z.trace.root == Some(0) && Released(z) == [0]
  {
    var y := Start(NewTrace());
    var a3 := [] + [Create(0, d)] + [PushSpan(0)] + [if drop then DropTrace else RecordError("")];
    OneSpanPushed(d, drop);
    OneSpanKeeps(d, OneSpanTrace(drop), if drop then [Drop] else []);
    OneSpanLeaves(d, OneSpanTrace(drop), if drop then [Drop] else []);
    assert Decide(OneSpanTrace(drop), Keep).decision == if drop then Drop else Keep;
    hide Runs, After, Step, Enabled, OneBuffered, OneKept, OneSpanTrace, Released;
    RunOnThree(y, a3, MarkFinished(0), CallKeep(0, NO_DROPPING), Acknowledge(0, true));
    OneChunkReleased(After(y, OneSpan(d, drop)));
  }

  lemma OneChunkReleased(z: System)
    requires |z.completed| == 1
    ensures Released(z) == z.completed[0].chunk.spans
  {
    FlattenSnoc([], z.completed[0].chunk.spans);
    assert Chunks(z.completed) == [] + [z.completed[0].chunk.spans];
  }

  lemma RunsNothing(y: System)
    ensures Runs(y, []) && After(y, []) == y
  {
  }

  /** SetUser is the exception: in this run it writes the root span after the root was released. */
  lemma SetUserWritesReleasedRoot(d: SpanData, id: string)
    requires !d.finished && KEY_SAMPLING_PRIORITY !in d.metrics
    ensures Runs(Start(NewTrace()), OneSpan(d, false)) && Runs(Start(NewTrace()), OneSpan(d, false) + [SetUser(id, false)])
    ensures var y := After(Start(NewTrace()), OneSpan(d, false));
      var z := After(Start(NewTrace()), OneSpan(d, false) + [SetUser(id, false)]);
      && y.trace.root == Some(0) && Released(y) == [0]
      && 0 in z.data && KEY_USER_ID in z.data[0].meta && z.data[0].meta[KEY_USER_ID] == id
  {
    hide Runs, After, OneSpan, Released, SpanInv, BufferInv;
    OneSpanRuns(d, false);
    StartKeeps(NewTrace());
    var y := After(Start(NewTrace()), OneSpan(d, false));
    BufferAlways(Start(NewTrace()), OneSpan(d, false));
    ReleasedIsAcked(y, 0);
    RunOn(Start(NewTrace()), OneSpan(d, false), SetUser(id, false));
    assert KEY_USER_ID !in FIELD_KEYS;
  }
}
