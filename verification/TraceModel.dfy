/**
 The state of one trace and what each lock-protected region does to it
 (ddtrace/tracer/spancontext.go and span.go).  The span type is a parameter:
 TraceObjects instantiates it with span objects, TraceRuns with identifiers.
 */
module TraceModel {
  import opened Common
  import opened Numerals
  import KnuthSampler

  const TRACE_MAX_SIZE: nat := 100_000

  const KEY_SAMPLING_PRIORITY := "_sampling_priority_v1"
  const KEY_DECISION_MAKER := "_dd.p.dm"
  const KEY_PROPAGATED_USER_ID := "_dd.p.usr.id"
  const KEY_PROPAGATION_ERROR := "_dd.propagation_error"
  const KEY_USER_ID := "usr.id"
  const KEY_EVENT_SAMPLE_RATE := "_dd1.sr.eausr"

  /** Metric keys that setMetric turns into a sampling priority instead of storing them. */
  const KEY_PRIORITY_TAG := "sampling.priority"
  const KEY_MANUAL_KEEP := "manual.keep"

  /** Tag keys that setMeta stores in a field of the span instead of its Meta map. */
  const FIELD_KEYS: set<string> := {"span.name", "service.name", "resource.name", "span.type"}

  const SAMPLER_UNKNOWN: int := -1
  const SAMPLER_MANUAL: int := 4
  const SAMPLER_APPSEC: int := 5
  const USER_KEEP: int := 2

  /** A sampling priority and the sampler that asks for it. */
  datatype Setting = Setting(p: int, sampler: int)

  datatype Decision = Undecided | Drop | Keep

  /** `error` is the span's own error flag, `errors` the count in its context, which a child inherits as it was. */
  datatype SpanData = SpanData(
    finished: bool,
    fields: map<string, string>,
    meta: map<string, string>,
    metrics: map<string, int>,
    error: bool,
    errors: int)

  datatype TraceState<S> = TraceState(
    spans: seq<S>,
    finished: nat,
    full: bool,
    priority: Option<int>,
    locked: bool,
    decision: Decision,
    root: Option<S>,
    tags: map<string, string>,
    propagatingTags: map<string, string>)

  /** What the trace hands to the tracer when a buffer completes. */
  datatype Chunk<S> = Chunk(spans: seq<S>, decision: Decision)

  function NewTrace<S>(): TraceState<S> {
    TraceState([], 0, false, None, false, Undecided, None, map[], map[])
  }

  function SetMeta(d: SpanData, k: string, v: string): SpanData {
    SetMetaWith(FIELD_KEYS, d, k, v)
  }

  function SetMetaWith(fieldKeys: set<string>, d: SpanData, k: string, v: string): SpanData {
    if k in fieldKeys
    then d.(fields := d.fields[k := v], metrics := d.metrics - {k})
    else d.(meta := d.meta[k := v], metrics := d.metrics - {k})
  }

  /** setMeta for every entry of a map; no two entries touch the same place, so no order is needed. */
  function SetMetas(d: SpanData, m: map<string, string>): SpanData {
    SetMetasWith(FIELD_KEYS, d, m)
  }

  function SetMetasWith(fieldKeys: set<string>, d: SpanData, m: map<string, string>): SpanData {
    d.(fields := d.fields + (m - (m.Keys - fieldKeys)),
       meta := d.meta + (m - fieldKeys),
       metrics := d.metrics - m.Keys)
  }

  /** What setMetric does for the keys that are stored as plain metrics. */
  function SetMetric(d: SpanData, k: string, v: int): SpanData {
    d.(meta := d.meta - {k}, metrics := d.metrics[k := v])
  }

  predicate Redirected(k: string) { k == KEY_PRIORITY_TAG || k == KEY_MANUAL_KEEP }

  /** The priority that setting a metric asks for. */
  function Redirect(k: string, v: int): Option<Setting> {
    if k == KEY_PRIORITY_TAG then Some(Setting(v, SAMPLER_MANUAL))
    else if k == KEY_MANUAL_KEEP && v == SAMPLER_APPSEC then Some(Setting(USER_KEEP, SAMPLER_APPSEC))
    else None
  }

  /** setMetric for every key, on a span that has not finished. */
  function TagMetric(d: SpanData, k: string, v: int): SpanData {
    if !Redirected(k) then SetMetric(d, k, v)
    else
      var e, x := d.(meta := d.meta - {k}), Redirect(k, v);
      if x.Some? then SetMetric(e, KEY_SAMPLING_PRIORITY, x.value.p) else e
  }

  /** setTagError on a span that has not finished. */
  function SetError(d: SpanData, yes: bool): SpanData {
    d.(error := yes,
       errors := if yes && !d.error then d.errors + 1 else if !yes && d.error then d.errors - 1 else d.errors)
  }

  /** A rate recorded as a metric, in units of 2^-64. */
  function RateOf(metric: int): real { metric as real / U64 as real }

  /** Whether there is a tracer, and if so whether the agent lets it drop; and the trace's ID. */
  datatype Finishing = Finishing(dropP0s: Option<bool>, traceId: KnuthSampler.TraceId)

  /** Whether a finishing span asks for its trace to be kept: always, unless the agent allows dropping. */
  predicate AsksKeep(priority: Option<int>, f: Finishing, d: SpanData) {
    f.dropP0s == Some(true) ==> ShouldKeep(priority, f.traceId, d)
  }

  /** shouldKeep: a positive priority, an error in the span's context, or the span's own event rate. */
  predicate ShouldKeep(priority: Option<int>, traceId: KnuthSampler.TraceId, d: SpanData) {
    || (priority.Some? && priority.value > 0)
    || d.errors > 0
    || (KEY_EVENT_SAMPLE_RATE in d.metrics && RateOf(d.metrics[KEY_EVENT_SAMPLE_RATE]) >= 0.0
        && KnuthSampler.SampledByRate(traceId, RateOf(d.metrics[KEY_EVENT_SAMPLE_RATE])))
  }

  function DecisionMakerValue(sampler: int): string { "-" + Itoa(sampler) }

  function SetSamplingPriority<S>(t: TraceState<S>, p: int, sampler: int): TraceState<S> {
    if t.locked then t
    else
      var held := KEY_DECISION_MAKER in t.propagatingTags;
      t.(priority := Some(p),
         propagatingTags :=
           if p > 0 && !held && sampler != SAMPLER_UNKNOWN
           then t.propagatingTags[KEY_DECISION_MAKER := DecisionMakerValue(sampler)]
           else if p <= 0 && held then t.propagatingTags - {KEY_DECISION_MAKER}
           else t.propagatingTags)
  }

  /** keep and drop: a compare-and-swap that only succeeds from the undecided state. */
  function Decide<S>(t: TraceState<S>, verdict: Decision): TraceState<S> {
    if t.decision == Undecided then t.(decision := verdict) else t
  }

  /** `metric` is the sampling priority metric of the pushed span, if it has one. */
  function Push<S>(t: TraceState<S>, s: S, metric: Option<int>): TraceState<S> {
    if t.full then t
    else if |t.spans| >= TRACE_MAX_SIZE then t.(full := true, spans := [])
    else
      var u := if metric.Some? then SetSamplingPriority(t, metric.value, SAMPLER_UNKNOWN) else t;
      u.(spans := u.spans + [s])
  }

  predicate LocksOn<S(==)>(t: TraceState<S>, s: S) {
    !t.full && t.root == Some(s) && t.priority.Some?
  }

  predicate Completes<S>(t: TraceState<S>) {
    !t.full && |t.spans| == t.finished + 1
  }

  function FinishedOne<S(==)>(t: TraceState<S>, s: S): TraceState<S> {
    if t.full then t
    else
      var u := t.(locked := t.locked || LocksOn(t, s));
      if Completes(t) then u.(spans := [], finished := 0) else u.(finished := t.finished + 1)
  }

  /** What finishedOne writes on the span it acknowledges. */
  function Seal<S(==)>(t: TraceState<S>, s: S, d: SpanData): SpanData {
    if t.full then d
    else
      var e := if LocksOn(t, s) then SetMetric(d, KEY_SAMPLING_PRIORITY, t.priority.value) else d;
      if |t.spans| > 0 && s == t.spans[0] then SetMetas(SetMetas(e, t.tags), t.propagatingTags) else e
  }

  /** SetUser with the identifier propagated (already encoded) or kept on the root span only. */
  function SetUserTags<S>(t: TraceState<S>, id: string, propagate: bool): TraceState<S> {
    t.(propagatingTags := if propagate then t.propagatingTags[KEY_PROPAGATED_USER_ID := id]
                          else t.propagatingTags - {KEY_PROPAGATED_USER_ID})
  }

  function SetUserData(d: SpanData, id: string, propagate: bool): SpanData {
    if propagate then d.(meta := d.meta - {KEY_USER_ID})
    else SetMeta(d.(meta := d.meta - {KEY_PROPAGATED_USER_ID}), KEY_USER_ID, id)
  }

  /** The span has this value under this key, in the field the key names or among its tags. */
  predicate Has(d: SpanData, k: string, v: string) {
    if k in FIELD_KEYS then k in d.fields && d.fields[k] == v else k in d.meta && d.meta[k] == v
  }

  lemma CopiedTag(d: SpanData, m: map<string, string>, k: string)
    ensures k in m ==> Has(SetMetas(d, m), k, m[k]) && k !in SetMetas(d, m).metrics
    ensures k !in m ==> forall v :: Has(SetMetas(d, m), k, v) <==> Has(d, k, v)
    ensures k !in m ==> (k in SetMetas(d, m).meta <==> k in d.meta) && (k in SetMetas(d, m).metrics <==> k in d.metrics)
    ensures k !in m && k in d.metrics ==> SetMetas(d, m).metrics[k] == d.metrics[k]
  {
    hide FIELD_KEYS;
  }

  lemma MetricKeepsTags(d: SpanData, n: int, k: string)
    requires k != KEY_SAMPLING_PRIORITY
    ensures var e := SetMetric(d, KEY_SAMPLING_PRIORITY, n);
      && (forall v :: Has(e, k, v) <==> Has(d, k, v)) && (k in e.meta <==> k in d.meta)
      && (k in e.metrics <==> k in d.metrics) && (k in d.metrics ==> e.metrics[k] == d.metrics[k])
  {
    hide FIELD_KEYS;
  }

  /** The text of the two tag maps, the propagating one last. */
  lemma SealedTag(d: SpanData, tags: map<string, string>, propagating: map<string, string>, k: string)
    ensures var e := SetMetas(SetMetas(d, tags), propagating);
      && (k in propagating ==> Has(e, k, propagating[k]) && k !in e.metrics)
      && (k in tags && k !in propagating ==> Has(e, k, tags[k]) && k !in e.metrics)
      && (k !in tags && k !in propagating ==>
            (forall v :: Has(e, k, v) <==> Has(d, k, v)) && (k in e.metrics <==> k in d.metrics))
  {
    hide Has, SetMetas;
    CopiedTag(d, tags, k);
    CopiedTag(SetMetas(d, tags), propagating, k);
  }

  /** What is written on the span at the head of the buffer, key by key. */
  lemma SealTags<S>(t: TraceState<S>, s: S, d: SpanData, k: string)
    requires !t.full && |t.spans| > 0 && t.spans[0] == s
    ensures var e := Seal(t, s, d);
      && (k in t.propagatingTags ==> Has(e, k, t.propagatingTags[k]) && k !in e.metrics)
      && (k in t.tags && k !in t.propagatingTags ==> Has(e, k, t.tags[k]) && k !in e.metrics)
      && (k !in t.tags && k !in t.propagatingTags && k != KEY_SAMPLING_PRIORITY ==>
            (forall v :: Has(e, k, v) <==> Has(d, k, v)) && (k in e.metrics <==> k in d.metrics))
  {
    hide Has, SetMetas, SetMetric;
    var e := if LocksOn(t, s) then SetMetric(d, KEY_SAMPLING_PRIORITY, t.priority.value) else d;
    SealedTag(e, t.tags, t.propagatingTags, k);
    if k != KEY_SAMPLING_PRIORITY && LocksOn(t, s) {
      MetricKeepsTags(d, t.priority.value, k);
    }
  }

  lemma KeysDiffer()
    ensures KEY_SAMPLING_PRIORITY != KEY_DECISION_MAKER
    ensures KEY_SAMPLING_PRIORITY != KEY_PROPAGATED_USER_ID
    ensures KEY_SAMPLING_PRIORITY != KEY_PROPAGATION_ERROR
    ensures KEY_SAMPLING_PRIORITY != KEY_USER_ID
    ensures KEY_DECISION_MAKER != KEY_PROPAGATED_USER_ID
  {}
}
