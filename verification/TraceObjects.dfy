/** The span and trace objects: their methods do to their fields what TraceModel says. */
module TraceObjects {
  import opened Common
  import opened TraceModel
  import KnuthSampler

  /** Setting one entry first and the rest later is setting them all. */
  lemma SetMetasStep(f: set<string>, d: SpanData, m: map<string, string>, k: string)
    requires k in m
    ensures SetMetasWith(f, SetMetaWith(f, d, k, m[k]), m - {k}) == SetMetasWith(f, d, m)
  {
    var rest := m - {k};
    if k in f {
      assert rest - f == m - f;
      AddFirst(d.fields, m - (m.Keys - f), k);
      assert m - (m.Keys - f) - {k} == rest - (rest.Keys - f);
    } else {
      assert rest - (rest.Keys - f) == m - (m.Keys - f);
      AddFirst(d.meta, m - f, k);
      assert m - f - {k} == rest - f;
    }
    assert d.metrics - {k} - rest.Keys == d.metrics - m.Keys;
  }

  lemma SetMetasNothing(f: set<string>, d: SpanData)
    ensures SetMetasWith(f, d, map[]) == d
  {
    assert SetMetasWith(f, d, map[]).fields == d.fields && SetMetasWith(f, d, map[]).meta == d.meta;
  }

  class Span {
    var finished: bool
    var fields: map<string, string>
    var meta: map<string, string>
    var metrics: map<string, int>
    var error: bool
    var errors: int // in the source a field of the span's context

    /** A child span starts with its parent's count of errors. */
    constructor (inherited: int)
      ensures Data() == SpanData(false, map[], map[], map[], false, inherited)
    {
      finished, fields, meta, metrics, error, errors := false, map[], map[], map[], false, inherited;
    }

    ghost function Data(): SpanData
      reads this
    {
      SpanData(finished, fields, meta, metrics, error, errors)
    }

    method SetMeta(k: string, v: string)
      modifies this
      ensures Data() == TraceModel.SetMeta(old(Data()), k, v)
    {
      metrics := metrics - {k};
      if k in FIELD_KEYS {
        fields := fields[k := v];
      } else {
        meta := meta[k := v];
      }
    }

    /** Copies every entry of the map, in whatever order the map yields them. */
    method SetMetas(m: map<string, string>)
      modifies this
      ensures Data() == TraceModel.SetMetas(old(Data()), m)
    {
      var rest := m;
      while rest != map[]
        invariant TraceModel.SetMetas(Data(), rest) == TraceModel.SetMetas(old(Data()), m)
        decreases |rest|
      {
        var k :| k in rest;
        SetMetasStep(FIELD_KEYS, Data(), rest, k);
        assert (rest - {k}).Keys == rest.Keys - {k};
        SetMeta(k, rest[k]);
        rest := rest - {k};
      }
      SetMetasNothing(FIELD_KEYS, Data());
    }

    /** setTagError */
    method SetError(yes: bool)
      modifies this`error, this`errors
      ensures Data() == if old(finished) then old(Data()) else TraceModel.SetError(old(Data()), yes)
    {
      if finished {
        return;
      }
      if yes {
        if !error {
          errors := errors + 1;
        }
        error := true;
      } else {
        if error {
          errors := errors - 1;
        }
        error := false;
      }
    }

    method SetMetric(k: string, v: int)
      modifies this
      ensures Data() == TraceModel.SetMetric(old(Data()), k, v)
    {
      meta := meta - {k};
      metrics := metrics[k := v];
    }
  }

  /** What finishedOne writes, without the order in which it writes it. */
  lemma SealExplained(t: TraceState<Span>, s: Span, d: SpanData)
    ensures !t.full && |t.spans| > 0 && t.spans[0] == s ==>
      && (forall k :: k in t.propagatingTags ==> Has(Seal(t, s, d), k, t.propagatingTags[k]))
      && (forall k :: k in t.tags && k !in t.propagatingTags ==> Has(Seal(t, s, d), k, t.tags[k]))
    ensures t.full || |t.spans| == 0 || t.spans[0] != s ==>
      Seal(t, s, d).fields == d.fields && Seal(t, s, d).meta.Keys <= d.meta.Keys
  {
    hide Has, TraceModel.SetMetas;
    if !t.full && |t.spans| > 0 && t.spans[0] == s {
      forall k ensures (k in t.propagatingTags ==> Has(Seal(t, s, d), k, t.propagatingTags[k]))
                    && (k in t.tags && k !in t.propagatingTags ==> Has(Seal(t, s, d), k, t.tags[k])) {
        SealTags(t, s, d, k);
      }
    }
  }

  class Trace {
    var spans: seq<Span>
    var finished: nat
    var full: bool
    var priority: Option<int>
    var locked: bool
    var decision: Decision
    var root: Option<Span>
    var tags: map<string, string>
    var propagatingTags: map<string, string>

    constructor ()
      ensures View() == NewTrace()
    {
      spans, finished, full, priority, locked := [], 0, false, None, false;
      decision, root, tags, propagatingTags := Undecided, None, map[], map[];
    }

    ghost function View(): TraceState<Span>
      reads this
    {
      TraceState(spans, finished, full, priority, locked, decision,
                 root, tags, propagatingTags)
    }

    method Keep()
      modifies this`decision
      ensures View() == Decide(old(View()), Decision.Keep)
    {
      if decision == Undecided {
        decision := Decision.Keep;
      }
    }

    method Drop()
      modifies this`decision
      ensures View() == Decide(old(View()), Decision.Drop)
    {
      if decision == Undecided {
        decision := Decision.Drop;
      }
    }

    method SetSamplingPriority(p: int, sampler: int)
      modifies this`priority, this`propagatingTags
      ensures View() == TraceModel.SetSamplingPriority(old(View()), p, sampler)
    {
      if locked {
        return;
      }
      priority := Some(p);
      var ok := KEY_DECISION_MAKER in propagatingTags;
      if p > 0 && !ok && sampler != SAMPLER_UNKNOWN {
        propagatingTags := propagatingTags[KEY_DECISION_MAKER := DecisionMakerValue(sampler)];
      }
      if p <= 0 && ok {
        propagatingTags := propagatingTags - {KEY_DECISION_MAKER};
      }
    }

    /** SetTag with a number: two keys set the sampling priority instead of a metric. */
    method TagMetric(s: Span, k: string, v: int)
      modifies this`priority, this`propagatingTags, s
      ensures old(s.finished) ==> s.Data() == old(s.Data()) && View() == old(View())
      ensures !old(s.finished) ==> s.Data() == TraceModel.TagMetric(old(s.Data()), k, v)
      ensures !old(s.finished) ==>
        var x := Redirect(k, v);
        View() == if x.Some? then TraceModel.SetSamplingPriority(old(View()), x.value.p, x.value.sampler) else old(View())
    {
      if s.finished {
        return;
      }
      if k == KEY_MANUAL_KEEP {
        s.meta := s.meta - {k};
        if v == SAMPLER_APPSEC {
          s.SetMetric(KEY_SAMPLING_PRIORITY, USER_KEEP);
          SetSamplingPriority(USER_KEEP, SAMPLER_APPSEC);
        }
      } else if k == KEY_PRIORITY_TAG {
        s.meta := s.meta - {k};
        s.SetMetric(KEY_SAMPLING_PRIORITY, v);
        SetSamplingPriority(v, SAMPLER_MANUAL);
      } else {
        s.SetMetric(k, v);
      }
    }

    method Push(s: Span)
      modifies this
      ensures View() == TraceModel.Push(old(View()), s,
        if KEY_SAMPLING_PRIORITY in s.metrics then Some(s.metrics[KEY_SAMPLING_PRIORITY]) else None)
    {
      if full {
        return;
      }
      if |spans| >= TRACE_MAX_SIZE {
        full := true;
        spans := [];
        return;
      }
      if KEY_SAMPLING_PRIORITY in s.metrics {
        SetSamplingPriority(s.metrics[KEY_SAMPLING_PRIORITY], SAMPLER_UNKNOWN);
      }
      spans := spans + [s];
    }

    /** The body of finishedOne, under the trace's lock. */
    method SealAndCount(s: Span, haveTracer: bool) returns (chunk: Option<Chunk<Span>>)
      modifies this, s
      ensures View() == TraceModel.FinishedOne(old(View()), s)
      ensures s.Data() == Seal(old(View()), s, old(s.Data()))
      ensures chunk == if haveTracer && Completes(old(View()))
                       then Some(Chunk(old(spans), old(decision))) else None
    {
      hide TraceModel.SetMetas, TraceModel.SetMetric;
      chunk := None;
      if full {
        return;
      }
      finished := finished + 1;
      if root == Some(s) && priority.Some? {
        s.SetMetric(KEY_SAMPLING_PRIORITY, priority.value);
        locked := true;
      }
      if |spans| > 0 && s == spans[0] {
        s.SetMetas(tags);
        s.SetMetas(propagatingTags);
      }
      if |spans| != finished {
        return;
      }
      if haveTracer {
        chunk := Some(Chunk(spans, decision));
      }
      spans := [];
      finished := 0;
    }

    /** Acknowledges a finished span; returns the chunk pushed to the tracer, if the buffer completed and there is a tracer. */
    method FinishedOne(s: Span, haveTracer: bool) returns (chunk: Option<Chunk<Span>>)
      modifies this, s
      ensures View() == TraceModel.FinishedOne(old(View()), s)
      ensures s.Data() == Seal(old(View()), s, old(s.Data()))
      ensures chunk == if haveTracer && Completes(old(View()))
                       then Some(Chunk(old(spans), old(decision))) else None
      ensures !old(full) && |old(spans)| > 0 && old(spans)[0] == s ==>
        && (forall k :: k in old(propagatingTags) ==> Has(s.Data(), k, old(propagatingTags)[k]))
        && (forall k :: k in old(tags) && k !in old(propagatingTags) ==> Has(s.Data(), k, old(tags)[k]))
      ensures old(full) || |old(spans)| == 0 || old(spans)[0] != s ==>
        s.fields == old(s.fields) && s.meta.Keys <= old(s.meta).Keys
    {
      hide Seal, TraceModel.FinishedOne, Has;
      SealExplained(View(), s, s.Data());
      chunk := SealAndCount(s, haveTracer);
    }

    /**
     span.finish: only the first call does anything, and keep comes before the acknowledgement.  With an agent
     that allows dropping, an undecided trace is kept by a span if and only if its priority is positive, or the
     span's context counts an error, or the span has an event rate that samples the trace; otherwise always.
     */
    method Finish(s: Span, f: Finishing) returns (chunk: Option<Chunk<Span>>)
      modifies this, s
      ensures old(s.finished) ==> chunk == None && View() == old(View()) && s.Data() == old(s.Data())
      ensures !old(s.finished) ==>
        var t := if AsksKeep(old(priority), f, old(s.Data())) then Decide(old(View()), Decision.Keep) else old(View());
        && View() == TraceModel.FinishedOne(t, s)
        && s.Data() == Seal(t, s, old(s.Data()).(finished := true))
        && chunk == (if f.dropP0s.Some? && Completes(t) then Some(Chunk(t.spans, t.decision)) else None)
      ensures !old(s.finished) && old(decision) == Undecided && f.dropP0s == Some(true) ==>
        (decision == Decision.Keep <==>
           || (old(priority).Some? && old(priority).value > 0)
           || old(s.errors) > 0
           || (KEY_EVENT_SAMPLE_RATE in old(s.metrics)
               && var rate := old(s.metrics)[KEY_EVENT_SAMPLE_RATE] as real / U64 as real;
                  rate >= 0.0 && KnuthSampler.SampledByRate(f.traceId, rate)))
      ensures !old(s.finished) && old(decision) == Undecided && f.dropP0s != Some(true) ==> decision == Decision.Keep
      ensures old(decision) != Undecided ==> decision == old(decision)
    {
      hide SetMetas, KnuthSampler.SampledByRate, Seal;
      if s.finished {
        return None;
      }
      s.finished := true;
      var keep := true;
      if f.dropP0s == Some(true) {
        keep := ShouldKeep(priority, f.traceId, SpanData(s.finished, s.fields, s.meta, s.metrics, s.error, s.errors));
      }
      if keep {
        Keep();
      }
      chunk := FinishedOne(s, f.dropP0s.Some?);
    }
  }
}
