/**
 What the first span of a chunk carries: when it is acknowledged, finishedOne writes the trace's tags
 and propagating tags on it (ddtrace/tracer/spancontext.go).
 */
module TraceSealing {
  import opened Common
  import opened TraceModel
  import opened SpanRules
  import opened TraceRuns

  // ---------- The acknowledgement ----------

  /**
   Acknowledging the span at the head of the buffer puts every propagating tag on it, and every other
   tag of the trace, each in its field or among the tags and no longer as a metric; under any other key
   it has what it had, but for the priority metric.
   */
  lemma HeadGetsTags(y: System, s: SpanId, tracer: bool, k: string)
    requires In(y, s, Acknowledging) && Heads(y.trace, s)
    ensures var t, z := y.trace, Step(y, Acknowledge(s, tracer));
      && s in z.data && s in z.sealed && z.sealed[s] == Stamp(t.tags, t.propagatingTags)
      && (k in t.propagatingTags ==> Has(z.data[s], k, t.propagatingTags[k]) && k !in z.data[s].metrics)
      && (k in t.tags && k !in t.propagatingTags ==> Has(z.data[s], k, t.tags[k]) && k !in z.data[s].metrics)
      && (k !in t.tags && k !in t.propagatingTags && k != KEY_SAMPLING_PRIORITY ==>
            (forall v :: Has(z.data[s], k, v) <==> Has(y.data[s], k, v)))
  {
    hide Has, Seal;
    SealTags(y.trace, s, y.data[s], k);
  }

  /** A span that is not at the head gains no tag, whatever the trace holds. */
  lemma OthersGetNoTags(y: System, s: SpanId, tracer: bool, k: string, v: string)
    requires In(y, s, Acknowledging) && !Heads(y.trace, s)
    ensures var z := Step(y, Acknowledge(s, tracer));
      && s in z.data && z.sealed == y.sealed && z.data[s].fields == y.data[s].fields
      && (Has(z.data[s], k, v) ==> Has(y.data[s], k, v))
      && (k != KEY_SAMPLING_PRIORITY ==> (Has(z.data[s], k, v) <==> Has(y.data[s], k, v)))
  {
    hide SetMetas, FIELD_KEYS;
  }

  // ---------- Over runs ----------

  /** The span still has what the stamp says, except under the given keys. */
  ghost predicate Carries(d: SpanData, stamp: Stamp, except: set<string>) {
    && (forall k :: k in stamp.propagatingTags && k !in except ==> Has(d, k, stamp.propagatingTags[k]))
    && (forall k :: k in stamp.tags && k !in stamp.propagatingTags && k !in except ==> Has(d, k, stamp.tags[k]))
  }

  /** The keys that may still be written on an acknowledged span. */
  function LaterKeys(root: Option<SpanId>, s: SpanId): set<string> {
    if root == Some(s) then MARKS + USER_KEYS else MARKS
  }

  ghost predicate SealedAt(y: System, s: SpanId) {
    s in y.sealed && s in y.acked && s in y.data && Carries(y.data[s], y.sealed[s], LaterKeys(y.trace.root, s))
  }

  ghost predicate SealInv(y: System) {
    && (forall s :: s in y.sealed ==> SealedAt(y, s))
    && (forall i :: 0 <= i < |y.completed| ==> y.completed[i].chunk.spans != [] && y.completed[i].chunk.spans[0] in y.sealed)
    && (!y.trace.full && y.trace.spans != [] && y.trace.spans[0] in y.acked ==> y.trace.spans[0] in y.sealed)
  }

  lemma TouchedCarries(d: SpanData, e: SpanData, stamp: Stamp, keys: set<string>, except: set<string>)
    requires Carries(d, stamp, except) && OnlyTouched(d, e, keys) && keys <= except
    ensures Carries(e, stamp, except)
  {
    hide FIELD_KEYS;
    forall k, v | k !in except && Has(d, k, v) ensures Has(e, k, v) {
      assert k in d.meta <==> k in d.meta - keys;
      assert k in e.meta <==> k in e.meta - keys;
    }
  }

  lemma WritableIsLater(y: System, a: Action, s: SpanId)
    ensures Writable(y, a, s) <= LaterKeys(y.trace.root, s)
  {
    hide MARKS, USER_KEYS;
  }

  /** A sealed span stays sealed, with the same stamp. */
  lemma StepKeepsSealed(y: System, a: Action, s: SpanId)
    requires SpanInv(y) && Enabled(y, a) && SealedAt(y, s)
    ensures SealedAt(Step(y, a), s) && Step(y, a).sealed[s] == y.sealed[s]
  {
    hide SpanInv, Carries, OnlyTouched, LaterKeys, Enabled;
    StepLeavesAcknowledged(y, a, s);
    WritableIsLater(y, a, s);
    SealedFrame(y, a, s);
    hide Step, Writable;
    TouchedCarries(y.data[s], Step(y, a).data[s], y.sealed[s], Writable(y, a, s), LaterKeys(y.trace.root, s));
  }

  lemma SealedFrame(y: System, a: Action, s: SpanId)
    requires SpanInv(y) && Enabled(y, a) && s in y.sealed && s in y.acked
    ensures var z := Step(y, a); s in z.sealed && z.sealed[s] == y.sealed[s] && s in z.acked
  {
    hide Step, SpanInv;
    AckedIsIdle(y, s);
    if a.Acknowledge? {
      BusyIsAnother(y, a, s);
      AcknowledgeFrame(y, a.s, a.tracer);
    } else {
      OtherFrame(y, a);
    }
  }

  lemma AcknowledgeFrame(y: System, s: SpanId, tracer: bool)
    requires In(y, s, Acknowledging)
    ensures var z := Step(y, Acknowledge(s, tracer));
      && z.acked == y.acked + {s}
      && z.sealed == (if Heads(y.trace, s) then y.sealed[s := Stamp(y.trace.tags, y.trace.propagatingTags)] else y.sealed)
      && z.completed == (if Completes(y.trace)
                         then y.completed + [Completion(Chunk(y.trace.spans, y.trace.decision), tracer, |y.verdicts|)]
                         else y.completed)
      && z.trace.full == y.trace.full && z.trace.spans == (if Completes(y.trace) then [] else y.trace.spans)
  {
    hide Seal;
  }

  /** Every other step leaves the stamps, the acknowledgements and the completions, and the head of the buffer. */
  lemma OtherFrame(y: System, a: Action)
    requires Enabled(y, a) && !a.Acknowledge?
    ensures var z := Step(y, a);
      && z.sealed == y.sealed && z.acked == y.acked && z.completed == y.completed
      && (!z.trace.full && z.trace.spans != [] ==>
            !y.trace.full && (if y.trace.spans != [] then z.trace.spans[0] == y.trace.spans[0] else a == PushSpan(z.trace.spans[0])))
  {
    if a.PushSpan? {
      PushRoot(y.trace, a.s, InheritedPriority(y.data[a.s]));
      hide Push, InheritedPriority;
    } else if a.Create? {
      hide SetMeta;
    } else if a.DropTrace? || a.RecordError? {
      TraceStepFrame(y, a);
      hide Step;
    } else {
      SubjectOf(y, a);
      SubjectFrame(y, a);
      hide Step, Enabled;
    }
  }

  lemma PushedIsNotAcked(y: System, s: SpanId)
    requires SpanInv(y) && Enabled(y, PushSpan(s))
    ensures s !in y.acked
  {
    SpanInvAt(y, s);
  }

  lemma OtherStepsKeepSeal(y: System, a: Action)
    requires SpanInv(y) && SealInv(y) && Enabled(y, a) && !a.Acknowledge?
    ensures SealInv(Step(y, a))
  {
    hide SpanInv, Enabled, Step, SealedAt;
    OtherFrame(y, a);
    if a.PushSpan? {
      PushedIsNotAcked(y, a.s);
    }
    forall s | s in y.sealed ensures SealedAt(Step(y, a), s) {
      StepKeepsSealed(y, a, s);
    }
  }

  lemma HeadIsSealed(y: System, s: SpanId, tracer: bool)
    requires In(y, s, Acknowledging) && Heads(y.trace, s)
    ensures SealedAt(Step(y, Acknowledge(s, tracer)), s)
  {
    hide Has;
    AcknowledgeFrame(y, s, tracer);
    HeadGetsTags(y, s, tracer, "");
    var z := Step(y, Acknowledge(s, tracer));
    forall k ensures (k in y.trace.propagatingTags ==> Has(z.data[s], k, y.trace.propagatingTags[k]))
                  && (k in y.trace.tags && k !in y.trace.propagatingTags ==> Has(z.data[s], k, y.trace.tags[k])) {
      HeadGetsTags(y, s, tracer, k);
    }
    hide Step;
  }

  /** When a buffer completes, its first span has been acknowledged, now or before. */
  lemma FirstIsAcked(y: System, s: SpanId, tracer: bool)
    requires SpanInv(y) && BufferInv(y) && In(y, s, Acknowledging) && Completes(y.trace)
    ensures |y.trace.spans| > 0 && y.trace.spans[0] in y.acked + {s}
  {
    hide SpanInv, BufferInv, Step;
    var z, c := Step(y, Acknowledge(s, tracer)), Completion(Chunk(y.trace.spans, y.trace.decision), tracer, |y.verdicts|);
    StepKeepsBuffer(y, Acknowledge(s, tracer));
    AcknowledgeFrame(y, s, tracer);
    assert InChunk(z, |y.completed|, y.trace.spans[0]);
    ChunkMember(z, y.trace.spans[0]);
    ReleasedIsAcked(z, y.trace.spans[0]);
  }

  lemma AcknowledgeKeepsSeal(y: System, s: SpanId, tracer: bool)
    requires SpanInv(y) && BufferInv(y) && SealInv(y) && In(y, s, Acknowledging)
    ensures SealInv(Step(y, Acknowledge(s, tracer)))
  {
    hide SpanInv, BufferInv, Step, SealedAt, Enabled;
    var a := Acknowledge(s, tracer);
    AcknowledgeEnabled(y, s, tracer);
    AcknowledgeFrame(y, s, tracer);
    if Completes(y.trace) {
      FirstIsAcked(y, s, tracer);
    }
    forall r | r in Step(y, a).sealed ensures SealedAt(Step(y, a), r) {
      if r == s && Heads(y.trace, s) {
        HeadIsSealed(y, s, tracer);
      } else {
        StepKeepsSealed(y, a, r);
      }
    }
  }

  lemma AcknowledgeEnabled(y: System, s: SpanId, tracer: bool)
    requires In(y, s, Acknowledging)
    ensures Enabled(y, Acknowledge(s, tracer))
  {
  }

  lemma {:induction false} SealAlways(y: System, actions: seq<Action>)
    requires SpanInv(y) && BufferInv(y) && SealInv(y) && Runs(y, actions)
    ensures SealInv(After(y, actions))
    decreases |actions|
  {
    hide SpanInv, BufferInv, SealInv, Step;
    if actions != [] {
      var a := actions[0];
      StepKeepsBuffer(y, a);
      if a.Acknowledge? {
        AcknowledgeKeepsSeal(y, a.s, a.tracer);
      } else {
        OtherStepsKeepSeal(y, a);
      }
      SealAlways(Step(y, a), actions[1..]);
    }
  }

  /**
   In every run, the first span of every completed chunk carries the tags and propagating tags that the
   trace had when that span was acknowledged, under every key that single-span sampling (and, on the
   root, SetUser) does not write later.
   */
  lemma ChunkHeadCarriesTags(t: TraceState<SpanId>, actions: seq<Action>, i: nat)
    requires Fresh(t) && Runs(Start(t), actions) && i < |After(Start(t), actions).completed|
    ensures var y := After(Start(t), actions); var chunk := y.completed[i].chunk.spans;
      && chunk != [] && chunk[0] in y.sealed && chunk[0] in y.data
      && Carries(y.data[chunk[0]], y.sealed[chunk[0]], LaterKeys(y.trace.root, chunk[0]))
  {
    hide Runs, After, SpanInv, BufferInv, Carries;
    StartKeeps(t);
    SealAlways(Start(t), actions);
  }

  /** A stamp, once made, is never replaced. */
  lemma {:induction false} StampIsFinal(y: System, actions: seq<Action>, s: SpanId)
    requires SpanInv(y) && BufferInv(y) && SealedAt(y, s) && Runs(y, actions)
    ensures s in y.sealed && s in After(y, actions).sealed && After(y, actions).sealed[s] == y.sealed[s]
    decreases |actions|
  {
    hide SpanInv, BufferInv, Carries, Step, Enabled;
    if actions != [] {
      StepKeepsBuffer(y, actions[0]);
      StepKeepsSealed(y, actions[0], s);
      StampIsFinal(Step(y, actions[0]), actions[1..], s);
    }
  }

  lemma MakerIsNoLaterKey(root: Option<SpanId>, s: SpanId)
    ensures KEY_DECISION_MAKER !in LaterKeys(root, s) && KEY_DECISION_MAKER !in FIELD_KEYS
  {
    assert |KEY_DECISION_MAKER| == 8 && KEY_DECISION_MAKER[4] == 'p' && KEY_APPLIED_RATE[4] == 'r' && KEY_MECHANISM[4] == 's';
    assert KEY_RULE_RATE[4] == 's' && KEY_MAX_PER_SECOND[4] == 's' && |KEY_USER_ID| == 6 && |KEY_PROPAGATED_USER_ID| == 12;
  }

  /** In particular the first span of a chunk names the decision maker of that moment. */
  lemma ChunkHeadNamesMaker(t: TraceState<SpanId>, actions: seq<Action>, i: nat)
    requires Fresh(t) && Runs(Start(t), actions) && i < |After(Start(t), actions).completed|
    ensures var y := After(Start(t), actions); var chunk := y.completed[i].chunk.spans;
      && chunk != [] && chunk[0] in y.sealed && chunk[0] in y.data
      && var maker, d := y.sealed[chunk[0]].propagatingTags, y.data[chunk[0]];
         KEY_DECISION_MAKER in maker ==> KEY_DECISION_MAKER in d.meta && d.meta[KEY_DECISION_MAKER] == maker[KEY_DECISION_MAKER]
  {
    hide Runs, After, LaterKeys, FIELD_KEYS;
    ChunkHeadCarriesTags(t, actions, i);
    var y := After(Start(t), actions);
    MakerIsNoLaterKey(y.trace.root, y.completed[i].chunk.spans[0]);
  }
}
