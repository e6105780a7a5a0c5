/**
 The sampling side of a trace's life: the write-once decision, the decision-maker tag
 and the freezing of the priority when the root span finishes.
 */
module TraceSampling {
  import opened Common
  import opened Numerals
  import opened TraceModel
  import opened SpanRules
  import opened TraceRuns
  import KnuthSampler

  // ---------- The keep/drop decision ----------

  function FirstVerdict(verdicts: seq<Decision>): Decision {
    if verdicts == [] then Undecided else verdicts[0]
  }

  ghost predicate ChunkDecided(y: System, c: Completion) {
    && c.seen <= |y.verdicts|
    && c.chunk.decision == FirstVerdict(y.verdicts[..c.seen])
    && (forall s :: s in c.chunk.spans && s in y.keepers ==> Keep in y.verdicts[..c.seen])
  }

  ghost predicate DecisionInv(y: System) {
    && (forall v :: v in y.verdicts ==> v == Keep || v == Drop)
    && y.trace.decision == FirstVerdict(y.verdicts)
    && (forall s :: s in y.keepers ==> Keep in y.verdicts)
    && (forall i :: 0 <= i < |y.completed| ==> ChunkDecided(y, y.completed[i]))
  }

  lemma CallKeepsDecision(y: System, verdict: Decision, keepers: set<SpanId>)
    requires SpanInv(y) && BufferInv(y) && DecisionInv(y) && (verdict == Keep || verdict == Drop)
    requires forall s :: s in keepers && s !in y.keepers ==> verdict == Keep && s !in y.acked
    ensures DecisionInv(Call(y, verdict).(keepers := keepers))
  {
    var z := Call(y, verdict).(keepers := keepers);
    assert y.verdicts != [] ==> y.verdicts[0] in y.verdicts;
    assert z.verdicts[|y.verdicts|] == verdict;
    forall i | 0 <= i < |z.completed| ensures ChunkDecided(z, z.completed[i]) {
      var c := y.completed[i];
      assert ChunkDecided(y, c);
      assert z.verdicts[..c.seen] == y.verdicts[..c.seen];
      forall s | s in c.chunk.spans && s in z.keepers ensures s in y.keepers {
        ChunkIsReleased(y, i, s);
      }
    }
  }

  lemma ChunkJoinsDecided(y: System, z: System, c: Completion)
    requires DecisionInv(y) && c.seen == |y.verdicts| && c.chunk.decision == y.trace.decision
    requires z.completed == y.completed + [c] && SameVerdicts(y, z)
    ensures DecisionInv(z)
  {
    assert y.verdicts[..c.seen] == y.verdicts;
    forall i | 0 <= i < |z.completed| ensures ChunkDecided(z, z.completed[i]) {
      if i < |y.completed| {
        assert ChunkDecided(y, y.completed[i]);
      }
    }
  }

  predicate SameVerdicts(y: System, z: System) {
    z.verdicts == y.verdicts && z.keepers == y.keepers && z.trace.decision == y.trace.decision
  }

  lemma OtherStepsKeepVerdicts(y: System, a: Action)
    requires Enabled(y, a) && !Asks(y, a) && !a.DropTrace?
    ensures SameVerdicts(y, Step(y, a))
    ensures Step(y, a).completed ==
      if a.Acknowledge? && Completes(y.trace)
      then y.completed + [Completion(Chunk(y.trace.spans, y.trace.decision), a.tracer, |y.verdicts|)]
      else y.completed
  {
    hide Released, SampleOne, SetUserData, SetMeta, SetMetric, TraceModel.TagMetric, SetSamplingPriority, Seal, SetError;
    PrioritySetterFrame(y.trace);
    if a.SampleSpan? {
      SampleFrame(y, a.s, a.rules, a.draw);
    }
  }

  lemma StepKeepsDecision(y: System, a: Action)
    requires SpanInv(y) && BufferInv(y) && DecisionInv(y) && Enabled(y, a)
    ensures DecisionInv(Step(y, a))
  {
    hide SpanInv, BufferInv, ChunkDecided;
    var z := Step(y, a);
    if Asks(y, a) {
      SpanInvAt(y, a.s);
      CallKeepsDecision(y, Keep, y.keepers + {a.s});
      SameVerdictsKeep(Call(y, Keep).(keepers := y.keepers + {a.s}), z);
    } else if a.DropTrace? {
      CallKeepsDecision(y, Drop, y.keepers);
    } else {
      OtherStepsKeepVerdicts(y, a);
      if a.Acknowledge? && Completes(y.trace) {
        ChunkJoinsDecided(y, z, z.completed[|y.completed|]);
      } else {
        SameVerdictsKeep(y, z);
      }
    }
  }

  lemma SameVerdictsKeep(y: System, z: System)
    requires DecisionInv(y) && SameVerdicts(y, z) && z.completed == y.completed
    ensures DecisionInv(z)
  {
    assert forall c :: ChunkDecided(y, c) ==> ChunkDecided(z, c);
  }

  lemma ChunkIsReleased(y: System, i: nat, s: SpanId)
    requires i < |y.completed| && s in y.completed[i].chunk.spans
    ensures s in Released(y)
  {
    FlattenMember(Chunks(y.completed), s);
    assert Chunks(y.completed)[i] == y.completed[i].chunk.spans;
  }

  lemma {:induction false} DecisionAlways(y: System, actions: seq<Action>)
    requires SpanInv(y) && BufferInv(y) && DecisionInv(y) && Runs(y, actions)
    ensures DecisionInv(After(y, actions))
    decreases |actions|
  {
    if actions != [] {
      StepKeepsBuffer(y, actions[0]);
      StepKeepsDecision(y, actions[0]);
      DecisionAlways(Step(y, actions[0]), actions[1..]);
    }
  }

  lemma StepKeepsVerdict(y: System, a: Action)
    requires Enabled(y, a) && y.trace.decision != Undecided
    ensures Step(y, a).trace.decision == y.trace.decision
  {
    if !Asks(y, a) && !a.DropTrace? {
      OtherStepsKeepVerdicts(y, a);
      hide Step;
    }
  }

  /** A decision, once made, is kept by every continuation. */
  lemma {:induction false} DecisionIsFinal(y: System, actions: seq<Action>)
    requires y.trace.decision != Undecided && Runs(y, actions)
    ensures After(y, actions).trace.decision == y.trace.decision
    decreases |actions|
  {
    hide Enabled, Step;
    if actions != [] {
      StepKeepsVerdict(y, actions[0]);
      DecisionIsFinal(Step(y, actions[0]), actions[1..]);
    }
  }

  /**
   A chunk carries the first verdict called before it was flushed.  Hence a chunk with a
   span that asked for keep is kept, unless the sampler dropped the trace before it left.
   */
  lemma ChunkWithKeptSpanIsKept(t: TraceState<SpanId>, actions: seq<Action>, i: nat)
    requires Fresh(t) && Runs(Start(t), actions) && i < |After(Start(t), actions).completed|
    ensures var y := After(Start(t), actions); var c := y.completed[i];
      && c.seen <= |y.verdicts| && c.chunk.decision == FirstVerdict(y.verdicts[..c.seen])
      && (Drop !in y.verdicts[..c.seen] ==>
            (c.chunk.decision == Keep <==> c.seen > 0)
            && ((exists s :: s in c.chunk.spans && s in y.keepers) ==> c.chunk.decision == Keep))
  {
    DecisionAlways(Start(t), actions);
    var y := After(Start(t), actions);
    var c := y.completed[i];
    assert ChunkDecided(y, c);
    var seen := y.verdicts[..c.seen];
    if Drop !in seen && c.seen > 0 {
      assert seen[0] in seen && seen[0] in y.verdicts;
    }
  }

  /** A kept span does not keep its trace when a drop came first: in this run its chunk is dropped. */
  lemma DropBeforeKeepWins(d: SpanData)
    requires !d.finished && KEY_SAMPLING_PRIORITY !in d.metrics
    ensures Runs(Start(NewTrace()), OneSpan(d, true))
    ensures var z := After(Start(NewTrace()), OneSpan(d, true));
      0 in z.keepers && |z.completed| == 1 && z.completed[0].chunk == Chunk([0], Drop)
  {
    hide Runs, After, OneSpan;
    OneSpanRuns(d, true);
  }

  // ---------- Which spans ask for keep ----------

  /**
   A span that finishes while its trace is undecided has it kept if and only if the agent does not allow
   dropping, or the trace's priority is positive, or the span's context counts an error, or the span has
   an event rate that samples the trace's ID.
   */
  lemma KeptExactly(y: System, s: SpanId, f: Finishing)
    requires In(y, s, Deciding) && y.trace.decision == Undecided
    ensures var z, d, p := Step(y, CallKeep(s, f)), y.data[s], y.trace.priority;
      && (z.trace.decision == Keep || z.trace.decision == Undecided)
      && z.keepers == (if z.trace.decision == Keep then y.keepers + {s} else y.keepers)
      && (z.trace.decision == Keep <==>
            || f.dropP0s != Some(true)
            || (p.Some? && p.value > 0)
            || d.errors > 0
            || (KEY_EVENT_SAMPLE_RATE in d.metrics
                && var rate := d.metrics[KEY_EVENT_SAMPLE_RATE] as real / U64 as real;
                   rate >= 0.0 && KnuthSampler.SampledByRate(f.traceId, rate)))
  {
    hide KnuthSampler.SampledByRate;
  }

  /** A span with an error counts it. */
  ghost predicate ErrorsCounted(d: SpanData) { d.errors >= if d.error then 1 else 0 }

  ghost predicate AllCounted(y: System) { forall s :: s in y.data ==> ErrorsCounted(y.data[s]) }

  lemma WritersKeepErrors(d: SpanData, k: string, v: string, n: int, b: bool)
    requires ErrorsCounted(d)
    ensures ErrorsCounted(SetMeta(d, k, v)) && ErrorsCounted(SetMetric(d, k, n)) && ErrorsCounted(TraceModel.TagMetric(d, k, n))
    ensures ErrorsCounted(SetUserData(d, v, b)) && ErrorsCounted(SetError(d, b))
  {
    hide FIELD_KEYS;
  }

  /** The count follows the flag: what a span inherited is the count less its own error, whatever it is tagged with. */
  lemma ErrorCountFollowsFlag(d: SpanData, yes: bool)
    ensures var e := SetError(d, yes);
      e.error == yes && e.errors - (if e.error then 1 else 0) == d.errors - (if d.error then 1 else 0)
  {
  }

  lemma SealKeepsErrors(t: TraceState<SpanId>, s: SpanId, d: SpanData)
    ensures Seal(t, s, d).error == d.error && Seal(t, s, d).errors == d.errors
  {
  }

  lemma StepKeepsErrors(y: System, a: Action)
    requires Enabled(y, a) && AllCounted(y) && (a.Create? ==> ErrorsCounted(a.data))
    ensures AllCounted(Step(y, a))
  {
    hide Released, SampleOne, SetUserData, SetMeta, SetMetric, TraceModel.TagMetric, Seal, SetError, AsksKeep, Push, FinishedOne,
      ErrorsCounted;
    match a {
      case BeginPriority(s, p, _) => WritersKeepErrors(y.data[s], KEY_SAMPLING_PRIORITY, "", p, false);
      case MarkFinished(s) => SameErrors(y.data[s], y.data[s].(finished := true));
      case Acknowledge(s, _) =>
        SealKeepsErrors(y.trace, s, y.data[s]);
        SameErrors(y.data[s], Seal(y.trace, s, y.data[s]));
      case TagMeta(s, k, v) => WritersKeepErrors(y.data[s], k, v, 0, false);
      case TagMetric(s, k, v) => WritersKeepErrors(y.data[s], k, "", v, false);
      case TagError(s, yes) => WritersKeepErrors(y.data[s], "", "", 0, yes);
      case SetUser(id, propagate) => WritersKeepErrors(y.data[y.trace.root.value], "", id, 0, propagate);
      case SampleSpan(s, rules, draw) =>
        SampleFrame(y, s, rules, draw);
        SameErrors(y.data[s], SampleOne(y, s, rules, draw).data[s]);
      case _ =>
    }
  }

  lemma SameErrors(d: SpanData, e: SpanData)
    requires ErrorsCounted(d) && e.error == d.error && e.errors == d.errors
    ensures ErrorsCounted(e)
  {
  }

  lemma {:induction false} ErrorsAlways(y: System, actions: seq<Action>)
    requires Runs(y, actions) && AllCounted(y)
    requires forall i :: 0 <= i < |actions| && actions[i].Create? ==> ErrorsCounted(actions[i].data)
    ensures AllCounted(After(y, actions))
    decreases |actions|
  {
    hide Step, Enabled, AllCounted, ErrorsCounted;
    if actions != [] {
      StepKeepsErrors(y, actions[0]);
      ErrorsAlways(Step(y, actions[0]), actions[1..]);
    }
  }

  /**
   In every run of spans created without an error, a span that finishes with one asks for keep, whatever
   the agent allows; an undecided trace is then kept.
   */
  lemma ErrorKeepsTrace(t: TraceState<SpanId>, actions: seq<Action>, s: SpanId, f: Finishing)
    requires Runs(Start(t), actions)
    requires forall i :: 0 <= i < |actions| && actions[i].Create? ==> !actions[i].data.error && actions[i].data.errors >= 0
    requires In(After(Start(t), actions), s, Deciding) && After(Start(t), actions).data[s].error
    ensures var y := After(Start(t), actions); var z := Step(y, CallKeep(s, f));
      s in z.keepers && (y.trace.decision == Undecided ==> z.trace.decision == Keep)
  {
    hide Runs, After, KnuthSampler.SampledByRate;
    ErrorsAlways(Start(t), actions);
  }

  // ---------- The decision-maker tag ----------

  /** The longest suffix of settings whose priorities are all positive. */
  function CurrentRun(h: seq<Setting>): (r: seq<Setting>)
    ensures |r| <= |h| && r == h[|h| - |r|..]
    ensures forall x :: x in r ==> x.p > 0
    ensures |r| < |h| ==> h[|h| - |r| - 1].p <= 0
  {
    if h == [] || h[|h| - 1].p <= 0 then [] else CurrentRun(h[..|h| - 1]) + [h[|h| - 1]]
  }

  function FirstKnown(r: seq<Setting>): Option<int> {
    if r == [] then None
    else if r[0].sampler != SAMPLER_UNKNOWN then Some(r[0].sampler)
    else FirstKnown(r[1..])
  }

  /**
   Who made the decision: a maker received from upstream stands while no setting was
   nonpositive; otherwise the first known sampler of the current run of positive priorities.
   */
  function Maker(upstream: Option<string>, h: seq<Setting>): Option<string> {
    var r := CurrentRun(h);
    if upstream.Some? && |r| == |h| then upstream
    else match FirstKnown(r)
      case None => None
      case Some(sampler) => Some(DecisionMakerValue(sampler))
  }

  function MakerTag<S>(t: TraceState<S>): Option<string> {
    if KEY_DECISION_MAKER in t.propagatingTags then Some(t.propagatingTags[KEY_DECISION_MAKER]) else None
  }

  lemma {:induction false} FirstKnownSnoc(r: seq<Setting>, x: Setting)
    ensures FirstKnown(r + [x]) ==
      if FirstKnown(r).Some? then FirstKnown(r)
      else if x.sampler != SAMPLER_UNKNOWN then Some(x.sampler) else None
  {
    if r == [] {
      assert r + [x] == [x];
    } else {
      assert (r + [x])[1..] == r[1..] + [x];
      FirstKnownSnoc(r[1..], x);
    }
  }

  lemma MakerSnoc(upstream: Option<string>, h: seq<Setting>, x: Setting)
    ensures x.p <= 0 ==> Maker(upstream, h + [x]) == None
    ensures x.p > 0 && Maker(upstream, h).Some? ==> Maker(upstream, h + [x]) == Maker(upstream, h)
    ensures x.p > 0 && Maker(upstream, h).None? && x.sampler == SAMPLER_UNKNOWN ==> Maker(upstream, h + [x]) == None
    ensures x.p > 0 && Maker(upstream, h).None? && x.sampler != SAMPLER_UNKNOWN
      ==> Maker(upstream, h + [x]) == Some(DecisionMakerValue(x.sampler))
  {
    hide FirstKnown, CurrentRun;
    CurrentRunSnoc(h, x);
    FirstKnownSnoc(CurrentRun(h), x);
    FirstKnownNothing();
  }

  lemma CurrentRunSnoc(h: seq<Setting>, x: Setting)
    ensures CurrentRun(h + [x]) == if x.p <= 0 then [] else CurrentRun(h) + [x]
  {
    assert (h + [x])[..|h|] == h;
  }

  lemma FirstKnownNothing()
    ensures FirstKnown([]) == None
  {
  }

  function LastPriority(initial: Option<int>, h: seq<Setting>): Option<int> {
    if h == [] then initial else Some(h[|h| - 1].p)
  }

  predicate MakerInv(y: System, initial: TraceState<SpanId>) {
    && MakerTag(y.trace) == Maker(MakerTag(initial), y.settings)
    && y.trace.priority == LastPriority(initial.priority, y.settings)
  }

  lemma SettingKeepsMaker(y: System, z: System, initial: TraceState<SpanId>, p: int, sampler: int)
    requires MakerInv(y, initial) && !y.trace.locked
    requires z.settings == y.settings + [Setting(p, sampler)]
    requires MakerTag(z.trace) == MakerTag(SetSamplingPriority(y.trace, p, sampler)) && z.trace.priority == Some(p)
    ensures MakerInv(z, initial)
  {
    MakerSnoc(MakerTag(initial), y.settings, Setting(p, sampler));
  }

  /** The settings, the priority and the maker stay, or one unrefused setting is made. */
  ghost predicate SetsAtMostOne(y: System, z: System) {
    || (z.settings == y.settings && z.trace.priority == y.trace.priority && MakerTag(z.trace) == MakerTag(y.trace))
    || (!y.trace.locked && |z.settings| == |y.settings| + 1
        && var x := z.settings[|y.settings|];
           && z.settings == y.settings + [x] && z.trace.priority == Some(x.p)
           && MakerTag(z.trace) == MakerTag(SetSamplingPriority(y.trace, x.p, x.sampler)))
  }

  lemma PushSets(y: System, s: SpanId)
    requires Enabled(y, PushSpan(s))
    ensures SetsAtMostOne(y, Step(y, PushSpan(s)))
  {
  }

  lemma SampleSets(y: System, s: SpanId, rules: seq<Rule>, draw: Draw)
    requires s in y.data
    ensures SetsAtMostOne(y, SampleOne(y, s, rules, draw))
  {
    hide SampleOne;
    SampleFrame(y, s, rules, draw);
  }

  lemma UserSets(t: TraceState<SpanId>, id: string, propagate: bool)
    ensures MakerTag(SetUserTags(t, id, propagate)) == MakerTag(t)
  {
    KeysDiffer();
  }

  /** Only unrefused settings touch the priority and the tag. */
  lemma StepsThatSet(y: System, a: Action)
    requires Enabled(y, a)
    ensures SetsAtMostOne(y, Step(y, a))
  {
    hide Released, SampleOne, SetUserData, SetMeta, SetMetric, TraceModel.TagMetric, Seal, SetError, AsksKeep;
    match a {
      case PushSpan(s) => PushSets(y, s);
      case SampleSpan(s, rules, draw) => SampleSets(y, s, rules, draw);
      case SetUser(id, propagate) => UserSets(y.trace, id, propagate);
      case _ =>
    }
  }

  lemma StepKeepsMaker(y: System, a: Action, initial: TraceState<SpanId>)
    requires MakerInv(y, initial) && Enabled(y, a)
    ensures MakerInv(Step(y, a), initial)
  {
    StepsThatSet(y, a);
    var z := Step(y, a);
    if z.settings != y.settings {
      var x := z.settings[|y.settings|];
      SettingKeepsMaker(y, z, initial, x.p, x.sampler);
    }
  }

  /**
   After any run the tag names exactly the maker that the history of settings determines,
   and the priority is the last one set.
   */
  lemma {:induction false} MakerAlways(y: System, actions: seq<Action>, initial: TraceState<SpanId>)
    requires MakerInv(y, initial) && Runs(y, actions)
    ensures MakerInv(After(y, actions), initial)
    decreases |actions|
  {
    if actions != [] {
      StepKeepsMaker(y, actions[0], initial);
      MakerAlways(Step(y, actions[0]), actions[1..], initial);
    }
  }

  /** Which (priority, tags) pairs can be sent in headers whose order is not kept. */
  predicate Consistent(priority: Option<int>, propagatingTags: map<string, string>) {
    priority.Some? && priority.value <= 0 ==> KEY_DECISION_MAKER !in propagatingTags
  }

  /**
   Whatever trace a run starts from, local or extracted, a reachable state names a maker for a
   nonpositive priority only if the first one did and no priority has been set since.
   */
  lemma ReachableIsConsistent(t: TraceState<SpanId>, actions: seq<Action>)
    requires Runs(Start(t), actions)
    ensures var y := After(Start(t), actions);
      Consistent(y.trace.priority, y.trace.propagatingTags)
      <==> Consistent(t.priority, t.propagatingTags) || y.settings != []
  {
    hide Runs, After, CurrentRun, FirstKnown, Maker;
    var y := After(Start(t), actions);
    MakerNothing(MakerTag(t));
    MakerAlways(Start(t), actions, t);
    var h := y.settings;
    if h != [] {
      MakerSnoc(MakerTag(t), h[..|h| - 1], h[|h| - 1]);
      assert h[..|h| - 1] + [h[|h| - 1]] == h;
    }
  }

  lemma MakerNothing(upstream: Option<string>)
    ensures Maker(upstream, []) == upstream
  {
    assert CurrentRun([]) == [];
  }

  /** An inconsistent extracted trace is repaired by the first span pushed with an inherited priority. */
  lemma FirstPushRepairs(t: TraceState<SpanId>, s: SpanId, d: SpanData)
    requires Fresh(t) && !d.finished && InheritedPriority(d).Some?
    ensures Runs(Start(t), [] + [Create(s, d)] + [PushSpan(s)])
    ensures var u := After(Start(t), [] + [Create(s, d)] + [PushSpan(s)]).trace; Consistent(u.priority, u.propagatingTags)
  {
    hide Runs, After;
    var y := Start(t);
    RunsNothing(y);
    RunOn(y, [], Create(s, d));
    RunOn(y, [] + [Create(s, d)], PushSpan(s));
    ReachableIsConsistent(t, [] + [Create(s, d)] + [PushSpan(s)]);
  }

  // ---------- Freezing at the end of the root ----------

  ghost predicate LockInv(y: System) {
    y.trace.locked ==>
      y.trace.priority.Some? && y.trace.root.Some? && y.trace.root.value in y.acked
  }

  lemma StepKeepsLock(y: System, a: Action)
    requires SpanInv(y) && LockInv(y) && Enabled(y, a)
    ensures LockInv(Step(y, a))
  {
    hide SpanInv, Released, SampleOne, SetUserData, SetMeta, SetMetric, TraceModel.TagMetric, Seal, SetError, AsksKeep;
    if a.SampleSpan? {
      SampleFrame(y, a.s, a.rules, a.draw);
    } else if a.PushSpan? {
      PushRoot(y.trace, a.s, InheritedPriority(y.data[a.s]));
    }
  }

  function PriorityMetric(y: System, s: SpanId): Option<int> {
    if s in y.data then InheritedPriority(y.data[s]) else None
  }

  lemma PriorityIsUntouched(y: System, a: Action, s: SpanId)
    requires Enabled(y, a) && s in y.data && s in Step(y, a).data
    requires OnlyTouched(y.data[s], Step(y, a).data[s], Writable(y, a, s))
    ensures InheritedPriority(Step(y, a).data[s]) == InheritedPriority(y.data[s])
  {
    hide Step, Enabled, MARKS;
    PriorityIsNoMark();
    KeysDiffer();
    var k, keys := KEY_SAMPLING_PRIORITY, Writable(y, a, s);
    var d, e := y.data[s], Step(y, a).data[s];
    assert k !in keys;
    assert k in d.metrics <==> k in d.metrics - keys;
    assert k in e.metrics <==> k in e.metrics - keys;
  }

  lemma StepKeepsRootMetric(y: System, a: Action)
    requires SpanInv(y) && LockInv(y) && Enabled(y, a) && y.trace.locked
    ensures PriorityMetric(Step(y, a), y.trace.root.value) == PriorityMetric(y, y.trace.root.value)
  {
    hide SpanInv, Step, Enabled;
    var r := y.trace.root.value;
    StepLeavesAcknowledged(y, a, r);
    PriorityIsUntouched(y, a, r);
  }

  lemma StepKeepsFrozen(y: System, a: Action)
    requires SpanInv(y) && LockInv(y) && Enabled(y, a) && y.trace.locked
    ensures var z := Step(y, a);
      && z.trace.locked && z.trace.root == y.trace.root && z.trace.priority == y.trace.priority
      && MakerTag(z.trace) == MakerTag(y.trace)
      && PriorityMetric(z, y.trace.root.value) == PriorityMetric(y, y.trace.root.value)
  {
    StepsThatSet(y, a);
    StepKeepsRootMetric(y, a);
    StepKeepsLocked(y, a);
    StepLeavesAcknowledged(y, a, y.trace.root.value);
    hide SpanInv, Step, Enabled;
  }

  lemma StepKeepsLocked(y: System, a: Action)
    requires Enabled(y, a) && y.trace.locked
    ensures Step(y, a).trace.locked
  {
    if Subject(y, a).Some? {
      SubjectFrame(y, a);
      hide Step;
    } else if a.PushSpan? {
      PushRoot(y.trace, a.s, InheritedPriority(y.data[a.s]));
    }
  }

  /** Once the root has finished with a priority set, nothing changes the priority, the maker tag or the root's metric. */
  lemma {:induction false} FrozenForever(y: System, actions: seq<Action>)
    requires SpanInv(y) && BufferInv(y) && LockInv(y) && y.trace.locked && Runs(y, actions)
    ensures var z := After(y, actions);
      && z.trace.priority == y.trace.priority && MakerTag(z.trace) == MakerTag(y.trace)
      && PriorityMetric(z, y.trace.root.value) == PriorityMetric(y, y.trace.root.value)
    decreases |actions|
  {
    if actions != [] {
      StepKeepsBuffer(y, actions[0]);
      StepKeepsLock(y, actions[0]);
      StepKeepsFrozen(y, actions[0]);
      FrozenForever(Step(y, actions[0]), actions[1..]);
    }
  }

  /** Tags of a trace that was created here, not extracted. */
  predicate LocalTags<S>(t: TraceState<S>) {
    && t.tags.Keys <= {KEY_PROPAGATION_ERROR}
    && t.propagatingTags.Keys <= {KEY_DECISION_MAKER, KEY_PROPAGATED_USER_ID}
  }

  /** On such a trace the frozen metric is the priority itself. */
  ghost predicate RootInv(y: System) {
    && LocalTags(y.trace)
    && LockInv(y)
    && (y.trace.locked ==> PriorityMetric(y, y.trace.root.value) == y.trace.priority)
  }

  lemma SealKeepsPriority(t: TraceState<SpanId>, s: SpanId, d: SpanData)
    requires LocalTags(t) && LocksOn(t, s)
    ensures InheritedPriority(Seal(t, s, d)) == t.priority
  {
    KeysDiffer();
  }

  lemma StepKeepsLocalTags(y: System, a: Action)
    requires LocalTags(y.trace) && Enabled(y, a)
    ensures LocalTags(Step(y, a).trace)
  {
    hide Released, SampleOne, SetUserData, SetMeta, SetMetric, TraceModel.TagMetric, Seal, SetError, AsksKeep;
    if a.SampleSpan? {
      SampleFrame(y, a.s, a.rules, a.draw);
    }
  }

  lemma StepKeepsUnlocked(y: System, a: Action)
    requires Enabled(y, a) && !y.trace.locked && !a.Acknowledge?
    ensures !Step(y, a).trace.locked
  {
    if Subject(y, a).Some? {
      SubjectFrame(y, a);
      hide Step;
    } else if a.PushSpan? {
      PushRoot(y.trace, a.s, InheritedPriority(y.data[a.s]));
    }
  }

  lemma StepKeepsRoot(y: System, a: Action)
    requires SpanInv(y) && RootInv(y) && Enabled(y, a)
    ensures RootInv(Step(y, a))
  {
    StepKeepsLocalTags(y, a);
    StepKeepsLock(y, a);
    hide SpanInv, LocalTags;
    if y.trace.locked {
      StepKeepsFrozen(y, a);
      hide Step;
    } else if a.Acknowledge? {
      hide Seal;
      if LocksOn(y.trace, a.s) {
        SealKeepsPriority(y.trace, a.s, y.data[a.s]);
      }
    } else {
      StepKeepsUnlocked(y, a);
      hide Step;
    }
  }

  /** After any run of a locally created trace: locked means the root's metric is the trace's priority. */
  lemma {:induction false} RootAlways(y: System, actions: seq<Action>)
    requires SpanInv(y) && BufferInv(y) && RootInv(y) && Runs(y, actions)
    ensures RootInv(After(y, actions))
    decreases |actions|
  {
    if actions != [] {
      StepKeepsBuffer(y, actions[0]);
      StepKeepsRoot(y, actions[0]);
      RootAlways(Step(y, actions[0]), actions[1..]);
    }
  }

  /** The root's own acknowledgement is what locks, unless the trace overflowed or never got a priority. */
  lemma RootFinishLocks(y: System, s: SpanId, tracer: bool)
    requires In(y, s, Acknowledging) && y.trace.root == Some(s)
    ensures Step(y, Acknowledge(s, tracer)).trace.locked <==>
      y.trace.locked || (!y.trace.full && y.trace.priority.Some?)
  {}

  // ---------- Traces created here, from start to end ----------

  /** The sampler that decided: the first known one of the current run of positive priorities. */
  function Decider(h: seq<Setting>): Option<int> { FirstKnown(CurrentRun(h)) }

  lemma LocalMaker(actions: seq<Action>)
    requires Runs(Start(NewTrace()), actions)
    ensures var y := After(Start(NewTrace()), actions); var maker := Decider(y.settings);
      && MakerTag(y.trace) == (if maker.Some? then Some(DecisionMakerValue(maker.value)) else None)
      && y.trace.priority == LastPriority(None, y.settings)
  {
    hide Runs, After, CurrentRun, FirstKnown, DecisionMakerValue;
    MakerNothing(None);
    MakerAlways(Start(NewTrace()), actions, NewTrace());
  }

  /**
   On a new trace, after any run, the tag is exactly the first known sampler of the current run of
   positive priorities, as text that parses to its negated number: absent when the last priority is not
   positive or no known sampler set it.
   */
  lemma LocalDecisionMaker(actions: seq<Action>)
    requires Runs(Start(NewTrace()), actions)
    ensures var y := After(Start(NewTrace()), actions); var maker := Decider(y.settings);
      && MakerTag(y.trace) == (if maker.Some? then Some(DecisionMakerValue(maker.value)) else None)
      && y.trace.priority == LastPriority(None, y.settings)
      && (y.trace.priority.Some? && y.trace.priority.value <= 0 ==> MakerTag(y.trace) == None)
      && (maker.Some? && 0 <= maker.value < U64 / 2 ==>
            var text := MakerTag(y.trace).value;
            text != "" && text[0] == '-' && ParseInt(text[1..]) == Some(maker.value) && ParseInt(text) == Some(-maker.value))
  {
    hide Runs, After, Decider, DecisionMakerValue, ParseInt, MakerTag;
    LocalMaker(actions);
    var h := After(Start(NewTrace()), actions).settings;
    if h != [] && h[|h| - 1].p <= 0 {
      NonpositiveHasNoMaker(h);
    }
    var maker := Decider(h);
    if maker.Some? && 0 <= maker.value < U64 / 2 {
      MakerText(maker.value);
    }
  }

  lemma NonpositiveHasNoMaker(h: seq<Setting>)
    requires h != [] && h[|h| - 1].p <= 0
    ensures Decider(h) == None
  {
  }

  /** The tag's text is a minus sign and the sampler's number. */
  lemma MakerText(sampler: int)
    requires 0 <= sampler < U64 / 2
    ensures var text := DecisionMakerValue(sampler);
      text != "" && text[0] == '-' && ParseInt(text[1..]) == Some(sampler) && ParseInt(text) == Some(-sampler)
  {
    var digits := Format(sampler, 10);
    ParseIntItoa(sampler);
    ParseUintFormat(sampler, 10);
    FormatPlain(sampler, 10);
    assert digits[0] in digits;
    ParseIntDigits(digits, sampler);
    assert DecisionMakerValue(sampler)[1..] == digits;
  }

  /**
   When the root of a new trace is acknowledged with a priority set (and the trace has not
   overflowed), then whatever happens later, the priority, the tag and the root's priority metric
   stay as they were at that moment, the metric being the priority.
   */
  lemma RootFinishFreezes(before: seq<Action>, root: SpanId, tracer: bool, later: seq<Action>)
    requires Runs(Start(NewTrace()), before)
    requires var y := After(Start(NewTrace()), before);
      && In(y, root, Acknowledging) && y.trace.root == Some(root) && !y.trace.full && y.trace.priority.Some?
      && Runs(Step(y, Acknowledge(root, tracer)), later)
    ensures var y := After(Start(NewTrace()), before);
      var z := After(Step(y, Acknowledge(root, tracer)), later);
      && z.trace.priority == y.trace.priority && MakerTag(z.trace) == MakerTag(y.trace)
      && PriorityMetric(z, root) == y.trace.priority
  {
    hide Runs, After;
    var y, a := After(Start(NewTrace()), before), Acknowledge(root, tracer);
    BufferAlways(Start(NewTrace()), before);
    RootAlways(Start(NewTrace()), before);
    RootFinishLocks(y, root, tracer);
    StepKeepsBuffer(y, a);
    StepKeepsRoot(y, a);
    StepsThatSet(y, a);
    AcknowledgeSets(y, root, tracer);
    FrozenForever(Step(y, a), later);
  }

  lemma AcknowledgeSets(y: System, s: SpanId, tracer: bool)
    requires In(y, s, Acknowledging)
    ensures var z := Step(y, Acknowledge(s, tracer));
      z.settings == y.settings && z.trace.root == y.trace.root && z.trace.priority == y.trace.priority
      && MakerTag(z.trace) == MakerTag(y.trace)
  {}
}
