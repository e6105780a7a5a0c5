/**
 Single-span sampling among the steps of a trace: the worker samples the spans of a chunk while
 other goroutines still push and finish spans of the same trace, and the trace cannot tell.
 */
module SpanSampling {
  import opened TraceModel
  import opened SpanRules
  import opened TraceRuns
  import opened Common
  import KnuthSampler

  /** The same run without its sampling steps. */
  function Erase(actions: seq<Action>): seq<Action> {
    if actions == [] then []
    else if actions[0].SampleSpan? then Erase(actions[1..])
    else [actions[0]] + Erase(actions[1..])
  }

  /** `z` is `y` but for the marks of single-span sampling. */
  ghost predicate SameButMarks(y: System, z: System) {
    && z == y.(data := z.data)
    && z.data.Keys == y.data.Keys
    && forall s :: s in y.data ==> OnlyMarked(y.data[s], z.data[s])
  }

  // ---------- Every writer keeps two spans alike ----------

  lemma WriteAlike(d: SpanData, e: SpanData, k: string, v: string, n: int)
    requires OnlyMarked(d, e)
    ensures OnlyMarked(SetMeta(d, k, v), SetMeta(e, k, v))
    ensures OnlyMarked(SetMetric(d, k, n), SetMetric(e, k, n))
    ensures OnlyMarked(d.(finished := true), e.(finished := true))
    ensures OnlyMarked(d.(meta := d.meta - {k}), e.(meta := e.meta - {k}))
    ensures OnlyMarked(SetError(d, true), SetError(e, true)) && OnlyMarked(SetError(d, false), SetError(e, false))
  {
    hide MARKS, FIELD_KEYS;
    RemoveAlike(d.meta, e.meta, k);
    RemoveAlike(d.metrics, e.metrics, k);
    PutAlike(d.meta, e.meta, k, v);
    PutAlike(d.metrics, e.metrics, k, n);
  }

  lemma RemoveAlike<V>(m: map<string, V>, n: map<string, V>, k: string)
    requires m - MARKS == n - MARKS
    ensures (m - {k}) - MARKS == (n - {k}) - MARKS
  {
    hide MARKS;
    assert (m - {k}) - MARKS == (m - MARKS) - {k};
    assert (n - {k}) - MARKS == (n - MARKS) - {k};
  }

  lemma PutAlike<V>(m: map<string, V>, n: map<string, V>, k: string, v: V)
    requires m - MARKS == n - MARKS
    ensures m[k := v] - MARKS == n[k := v] - MARKS
  {
    hide MARKS;
    if k in MARKS {
      assert m[k := v] - MARKS == m - MARKS && n[k := v] - MARKS == n - MARKS;
    } else {
      assert m[k := v] - MARKS == (m - MARKS)[k := v] && n[k := v] - MARKS == (n - MARKS)[k := v];
    }
  }

  lemma AddAlike(m: map<string, string>, n: map<string, string>, more: map<string, string>)
    requires m - MARKS == n - MARKS
    ensures (m + more) - MARKS == (n + more) - MARKS
  {
    hide MARKS;
    assert (m + more) - MARKS == (m - MARKS) + (more - MARKS);
    assert (n + more) - MARKS == (n - MARKS) + (more - MARKS);
  }

  lemma DropAlike(m: map<string, int>, n: map<string, int>, keys: set<string>)
    requires m - MARKS == n - MARKS
    ensures (m - keys) - MARKS == (n - keys) - MARKS
  {
    hide MARKS;
    assert (m - keys) - MARKS == (m - MARKS) - keys;
    assert (n - keys) - MARKS == (n - MARKS) - keys;
  }

  lemma SetMetasAlike(d: SpanData, e: SpanData, m: map<string, string>)
    requires OnlyMarked(d, e)
    ensures OnlyMarked(SetMetas(d, m), SetMetas(e, m))
  {
    hide MARKS, FIELD_KEYS;
    AddAlike(d.meta, e.meta, m - FIELD_KEYS);
    DropAlike(d.metrics, e.metrics, m.Keys);
  }

  lemma SealAlike(t: TraceState<SpanId>, s: SpanId, d: SpanData, e: SpanData)
    requires OnlyMarked(d, e)
    ensures OnlyMarked(Seal(t, s, d), Seal(t, s, e))
  {
    hide OnlyMarked, SetMetas, SetMetric;
    var d1 := if LocksOn(t, s) then SetMetric(d, KEY_SAMPLING_PRIORITY, t.priority.value) else d;
    var e1 := if LocksOn(t, s) then SetMetric(e, KEY_SAMPLING_PRIORITY, t.priority.value) else e;
    if LocksOn(t, s) {
      WriteAlike(d, e, KEY_SAMPLING_PRIORITY, "", t.priority.value);
    }
    SetMetasAlike(d1, e1, t.tags);
    SetMetasAlike(SetMetas(d1, t.tags), SetMetas(e1, t.tags), t.propagatingTags);
  }

  lemma TagMetricAlike(d: SpanData, e: SpanData, k: string, v: int)
    requires OnlyMarked(d, e)
    ensures OnlyMarked(TraceModel.TagMetric(d, k, v), TraceModel.TagMetric(e, k, v))
  {
    hide OnlyMarked, SetMetric;
    WriteAlike(d, e, k, "", v);
    if Redirect(k, v).Some? {
      WriteAlike(d.(meta := d.meta - {k}), e.(meta := e.meta - {k}), KEY_SAMPLING_PRIORITY, "", Redirect(k, v).value.p);
    }
  }

  lemma UserAlike(d: SpanData, e: SpanData, id: string, propagate: bool)
    requires OnlyMarked(d, e)
    ensures OnlyMarked(SetUserData(d, id, propagate), SetUserData(e, id, propagate))
  {
    hide OnlyMarked, SetMeta;
    WriteAlike(d, e, KEY_USER_ID, "", 0);
    WriteAlike(d, e, KEY_PROPAGATED_USER_ID, "", 0);
    WriteAlike(d.(meta := d.meta - {KEY_PROPAGATED_USER_ID}), e.(meta := e.meta - {KEY_PROPAGATED_USER_ID}), KEY_USER_ID, id, 0);
  }

  /** The marks play no part in whether a finishing span asks for keep. */
  lemma AsksAlike(priority: Option<int>, f: Finishing, d: SpanData, e: SpanData)
    requires OnlyMarked(d, e)
    ensures AsksKeep(priority, f, d) <==> AsksKeep(priority, f, e)
  {
    hide MARKS, KnuthSampler.SampledByRate;
    EventRateIsNoMark();
    var k := KEY_EVENT_SAMPLE_RATE;
    assert k in d.metrics <==> k in d.metrics - MARKS;
    assert k in e.metrics <==> k in e.metrics - MARKS;
  }

  lemma EventRateIsNoMark()
    ensures KEY_EVENT_SAMPLE_RATE !in MARKS
  {
    assert KEY_EVENT_SAMPLE_RATE[3] == '1' && KEY_APPLIED_RATE[3] == '.' && KEY_MECHANISM[3] == '.'
        && KEY_RULE_RATE[3] == '.' && KEY_MAX_PER_SECOND[3] == '.';
  }

  // ---------- Every other step keeps two states alike ----------

  /** Both states get the same change, except for the data of one span. */
  lemma OneAlike(y: System, z: System, y': System, z': System, s: SpanId)
    requires SameButMarks(y, z) && s in y'.data && s in z'.data
    requires y'.data == y.data[s := y'.data[s]] && z'.data == z.data[s := z'.data[s]]
    requires z' == y'.(data := z'.data) && OnlyMarked(y'.data[s], z'.data[s])
    ensures SameButMarks(y', z')
  {
    hide OnlyMarked;
  }

  lemma AlikeAt(y: System, z: System, s: SpanId)
    requires SameButMarks(y, z) && s in y.data
    ensures s in z.data && OnlyMarked(y.data[s], z.data[s]) && y.data[s].finished == z.data[s].finished
    ensures InheritedPriority(y.data[s]) == InheritedPriority(z.data[s])
  {
    MarkedPriority(y.data[s], z.data[s]);
  }

  lemma AlikeEnabled(y: System, z: System, a: Action)
    requires SameButMarks(y, z) && Enabled(z, a)
    ensures Enabled(y, a)
  {
    hide OnlyMarked;
    assert Released(y) == Released(z);
  }

  /** The steps that write a tag, a metric or an error on their span. */
  lemma WriteStepAlike(y: System, z: System, a: Action)
    requires SameButMarks(y, z) && Enabled(z, a) && Enabled(y, a)
    requires a.BeginPriority? || a.TagMeta? || a.TagMetric? || a.TagError? || a.MarkFinished?
    ensures SameButMarks(Step(y, a), Step(z, a))
  {
    hide SameButMarks, OnlyMarked, SetMeta, SetMetric, TraceModel.TagMetric, SetError;
    AlikeFrame(y, z);
    AlikeAt(y, z, a.s);
    var d, e := y.data[a.s], z.data[a.s];
    match a {
      case BeginPriority(_, p, _) => WriteAlike(d, e, KEY_SAMPLING_PRIORITY, "", p);
      case MarkFinished(_) => WriteAlike(d, e, "", "", 0);
      case TagError(_, _) => WriteAlike(d, e, "", "", 0);
      case TagMeta(_, k, v) => WriteAlike(d, e, k, v, 0);
      case TagMetric(_, k, v) => TagMetricAlike(d, e, k, v);
    }
    OneAlike(y, z, Step(y, a), Step(z, a), a.s);
  }

  /** The steps that also change the trace. */
  lemma TraceStepAlike(y: System, z: System, a: Action)
    requires SameButMarks(y, z) && Enabled(z, a) && Enabled(y, a)
    requires a.PushSpan? || a.EndPriority? || a.CallKeep? || a.Acknowledge? || a.SetUser?
    ensures SameButMarks(Step(y, a), Step(z, a))
  {
    hide SameButMarks, OnlyMarked, SetUserData, Seal, SetSamplingPriority, Push, FinishedOne, Decide, AsksKeep, InheritedPriority;
    AlikeFrame(y, z);
    var s := if a.SetUser? then y.trace.root.value else a.s;
    AlikeAt(y, z, s);
    var d, e := y.data[s], z.data[s];
    if a.CallKeep? {
      AsksAlike(y.trace.priority, a.finishing, d, e);
    } else if a.Acknowledge? {
      SealAlike(y.trace, s, d, e);
    } else if a.SetUser? {
      UserAlike(d, e, a.id, a.propagate);
    }
    OneAlike(y, z, Step(y, a), Step(z, a), s);
  }

  lemma StepAlike(y: System, z: System, a: Action)
    requires SameButMarks(y, z) && Enabled(z, a) && Enabled(y, a) && !a.SampleSpan?
    ensures SameButMarks(Step(y, a), Step(z, a))
  {
    if a.Create? {
      hide Step, Enabled, SameButMarks;
      CreateAlike(y, z, a.s, a.data);
    } else if a.DropTrace? || a.RecordError? {
      hide OnlyMarked;
      DataAlike(y, z, Step(y, a), Step(z, a));
    } else if a.BeginPriority? || a.TagMeta? || a.TagMetric? || a.TagError? || a.MarkFinished? {
      hide Step, Enabled, SameButMarks;
      WriteStepAlike(y, z, a);
    } else {
      hide Step, Enabled, SameButMarks;
      TraceStepAlike(y, z, a);
    }
  }

  lemma AlikeFrame(y: System, z: System)
    requires SameButMarks(y, z)
    ensures z == y.(data := z.data) && z.data.Keys == y.data.Keys
  {
  }

  lemma CreateAlike(y: System, z: System, s: SpanId, d: SpanData)
    requires SameButMarks(y, z) && Enabled(y, Create(s, d)) && Enabled(z, Create(s, d))
    ensures SameButMarks(Step(y, Create(s, d)), Step(z, Create(s, d)))
  {
    hide OnlyMarked;
    MarkNothing(d);
  }

  lemma DataAlike(y: System, z: System, y': System, z': System)
    requires SameButMarks(y, z) && y'.data == y.data && z'.data == z.data && z' == y'.(data := z'.data)
    ensures SameButMarks(y', z')
  {
  }

  // ---------- The theorem ----------

  /** Sampling a released span writes its four marks and nothing else. */
  lemma SampleAlike(y: System, z: System, s: SpanId, rules: seq<Rule>, draw: Draw)
    requires SameButMarks(y, z) && SpanInv(z) && BufferInv(z) && Enabled(z, SampleSpan(s, rules, draw))
    ensures SameButMarks(y, Step(z, SampleSpan(s, rules, draw)))
    ensures Step(z, SampleSpan(s, rules, draw)).trace == z.trace
  {
    ReleasedIsAcked(z, s);
    SampleFrame(z, s, rules, draw);
    SamplingMarks(z, s, rules, draw);
    hide SpanInv, BufferInv, SampleOne, Enabled, OnlyMarked;
    var w := SampleOne(z, s, rules, draw);
    assert OnlyMarked(z.data[s], w.data[s]) by { MarksAre(z.data[s], w.data[s]); }
    AlikeAt(y, z, s);
    MarkTwice(y.data[s], z.data[s], w.data[s]);
    SampledAlike(y, z, w, s);
  }

  lemma MarksAre(d: SpanData, e: SpanData)
    requires OnlyTouched(d, e, MARKS)
    ensures OnlyMarked(d, e)
  {
  }

  lemma SampledAlike(y: System, z: System, w: System, s: SpanId)
    requires SameButMarks(y, z) && s in z.data && s in w.data && w == z.(data := w.data) && w.data == z.data[s := w.data[s]]
    requires OnlyMarked(y.data[s], w.data[s])
    ensures SameButMarks(y, w)
  {
    hide OnlyMarked;
  }

  lemma MarkTwice(d: SpanData, e: SpanData, f: SpanData)
    requires OnlyMarked(d, e) && OnlyMarked(e, f)
    ensures OnlyMarked(d, f)
  {
  }

  lemma {:induction false} ErasedRun(y: System, z: System, actions: seq<Action>)
    requires SameButMarks(y, z) && SpanInv(z) && BufferInv(z) && Runs(z, actions)
    ensures Runs(y, Erase(actions)) && SameButMarks(After(y, Erase(actions)), After(z, actions))
    decreases |actions|
  {
    hide SameButMarks, SpanInv, BufferInv, Enabled, Step;
    if actions != [] {
      var a, rest := actions[0], actions[1..];
      StepKeepsBuffer(z, a);
      if a.SampleSpan? {
        SampleAlike(y, z, a.s, a.rules, a.draw);
        ErasedRun(y, Step(z, a), rest);
      } else {
        AlikeEnabled(y, z, a);
        StepAlike(y, z, a);
        ErasedRun(Step(y, a), Step(z, a), rest);
        assert ([a] + Erase(rest))[1..] == Erase(rest);
      }
    }
  }

  /**
   Take the sampling steps out of any run on a trace, wherever they stood among the others, and it
   is still a run: it ends with the same trace (priority, tags, lock and decision), the same chunks
   and settings, and the same data on every span but for the four marks.
   */
  lemma SamplingIsInvisible(t: TraceState<SpanId>, actions: seq<Action>)
    requires Fresh(t) && Runs(Start(t), actions)
    ensures Runs(Start(t), Erase(actions))
    ensures var y, z := After(Start(t), Erase(actions)), After(Start(t), actions);
      && SameButMarks(y, z) && z.trace == y.trace && z.settings == y.settings && z.completed == y.completed
      && forall s :: s in y.data ==> s in z.data && InheritedPriority(z.data[s]) == InheritedPriority(y.data[s])
  {
    hide Runs, After, SpanInv, BufferInv, InheritedPriority, Erase, OnlyMarked;
    StartKeeps(t);
    assert SameButMarks(Start(t), Start(t));
    ErasedRun(Start(t), Start(t), actions);
    var y, z := After(Start(t), Erase(actions)), After(Start(t), actions);
    forall s | s in y.data ensures InheritedPriority(z.data[s]) == InheritedPriority(y.data[s]) {
      AlikeAt(y, z, s);
    }
  }
}
