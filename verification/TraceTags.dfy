/** What setMeta and setMetric delete for: over every run, no key of a span is both a tag and a metric. */
module TraceTags {
  import opened Common
  import opened TraceModel
  import opened SpanRules
  import KnuthSampler
  import opened TraceRuns

  /** No key has two values, and the keys that stand for a priority are not stored as metrics. */
  ghost predicate Tidy(d: SpanData) {
    d.meta.Keys !! d.metrics.Keys && KEY_PRIORITY_TAG !in d.metrics && KEY_MANUAL_KEEP !in d.metrics
  }

  ghost predicate AllTidy(y: System) { forall s :: s in y.data ==> Tidy(y.data[s]) }

  /** The value a span has under a key, as text or as a number. */
  datatype Value = Text(s: string) | Number(n: int)

  function ValuesOf(d: SpanData, k: string): set<Value> {
    (if k in d.meta then {Text(d.meta[k])} else {}) + (if k in d.metrics then {Number(d.metrics[k])} else {})
  }

  lemma PlainKeys()
    ensures !Redirected(KEY_SAMPLING_PRIORITY) && !Redirected(KEY_APPLIED_RATE) && !Redirected(KEY_MECHANISM)
    ensures !Redirected(KEY_RULE_RATE) && !Redirected(KEY_MAX_PER_SECOND)
  {
    assert KEY_PRIORITY_TAG[0] == 's' && KEY_MANUAL_KEEP[0] == 'm';
    assert KEY_SAMPLING_PRIORITY[0] == '_' && KEY_APPLIED_RATE[0] == '_' && KEY_MECHANISM[0] == '_';
    assert KEY_RULE_RATE[0] == '_' && KEY_MAX_PER_SECOND[0] == '_';
  }

  /** Setting a tag leaves exactly one value under its key, unless the key names a field, and no other key loses or gains one. */
  lemma SetMetaReplaces(d: SpanData, k: string, v: string, other: string)
    requires Tidy(d) && other != k
    ensures Tidy(SetMeta(d, k, v)) && ValuesOf(SetMeta(d, k, v), other) == ValuesOf(d, other)
    ensures k !in FIELD_KEYS ==> ValuesOf(SetMeta(d, k, v), k) == {Text(v)}
    ensures k in FIELD_KEYS ==> k in SetMeta(d, k, v).fields && SetMeta(d, k, v).fields[k] == v && k !in SetMeta(d, k, v).metrics
  {
    hide FIELD_KEYS;
  }

  lemma StaysTidy(d: SpanData, k: string, n: int)
    requires Tidy(d) && !Redirected(k)
    ensures Tidy(SetMetric(d, k, n))
  {
  }

  lemma SetMetricTidy(d: SpanData, k: string, n: int)
    requires Tidy(d) && !Redirected(k)
    ensures Tidy(SetMetric(d, k, n)) && ValuesOf(SetMetric(d, k, n), k) == {Number(n)}
    ensures forall other :: other != k ==> ValuesOf(SetMetric(d, k, n), other) == ValuesOf(d, other)
  {
  }

  /**
   Setting a number leaves exactly that value under its key; under the two keys that stand for a
   priority it leaves none, and the priority asked for is the one value of the priority metric.
   */
  lemma SetMetricReplaces(d: SpanData, k: string, n: int, other: string)
    requires Tidy(d) && other != k
    ensures var e, x := TraceModel.TagMetric(d, k, n), Redirect(k, n);
      && Tidy(e)
      && ValuesOf(e, k) == (if Redirected(k) then {} else {Number(n)})
      && (x.Some? ==> ValuesOf(e, KEY_SAMPLING_PRIORITY) == {Number(x.value.p)})
      && (x.None? || other != KEY_SAMPLING_PRIORITY ==> ValuesOf(e, other) == ValuesOf(d, other))
  {
    hide SetMetric;
    PlainKeys();
    if !Redirected(k) {
      SetMetricTidy(d, k, n);
    } else {
      var e := d.(meta := d.meta - {k});
      assert Tidy(e) && ValuesOf(e, k) == {} && ValuesOf(e, other) == ValuesOf(d, other);
      if Redirect(k, n).Some? {
        SetMetricTidy(e, KEY_SAMPLING_PRIORITY, Redirect(k, n).value.p);
      }
    }
  }

  lemma SetMetasTidy(d: SpanData, m: map<string, string>)
    requires Tidy(d)
    ensures Tidy(SetMetas(d, m))
  {
    hide FIELD_KEYS;
  }

  lemma SealKeepsTidy(t: TraceState<SpanId>, s: SpanId, d: SpanData)
    requires Tidy(d)
    ensures Tidy(Seal(t, s, d))
  {
    hide Tidy, SetMetas, SetMetric;
    PlainKeys();
    var e := if LocksOn(t, s) then SetMetric(d, KEY_SAMPLING_PRIORITY, t.priority.value) else d;
    if LocksOn(t, s) {
      StaysTidy(d, KEY_SAMPLING_PRIORITY, t.priority.value);
    }
    SetMetasTidy(e, t.tags);
    SetMetasTidy(SetMetas(e, t.tags), t.propagatingTags);
  }

  lemma FireKeepsTidy(t: TraceState<SpanId>, d: SpanData, r: Rule, draw: Draw)
    requires Tidy(d)
    ensures Tidy(Fire(t, d, r, draw.id, draw.answer).data)
  {
    hide Tidy, SetMetric, Fixed, SetSamplingPriority, KnuthSampler.SampledByRate;
    PlainKeys();
    var rate := if r.limited then draw.answer.rate else r.rate;
    var a := SetMetric(d, KEY_APPLIED_RATE, Fixed(r.rate));
    StaysTidy(d, KEY_APPLIED_RATE, Fixed(r.rate));
    StaysTidy(a, KEY_SAMPLING_PRIORITY, USER_REJECT);
    StaysTidy(a, KEY_SAMPLING_PRIORITY, USER_KEEP);
    var b := if a.finished then a else SetMetric(a, KEY_SAMPLING_PRIORITY, USER_KEEP);
    StaysTidy(b, KEY_MECHANISM, MECHANISM_SINGLE_SPAN);
    var c := SetMetric(b, KEY_MECHANISM, MECHANISM_SINGLE_SPAN);
    StaysTidy(c, KEY_RULE_RATE, Fixed(rate));
    StaysTidy(SetMetric(c, KEY_RULE_RATE, Fixed(rate)), KEY_MAX_PER_SECOND, r.maxPerSecond);
  }

  lemma {:induction false} ApplyKeepsTidy(t: TraceState<SpanId>, d: SpanData, rules: seq<Rule>, draw: Draw)
    requires Tidy(d)
    ensures Tidy(Apply(t, d, rules, draw.id, draw.answer).data)
    decreases |rules|
  {
    hide Tidy, Fire, Match;
    if rules != [] {
      if Match(rules[0], d) {
        FireKeepsTidy(t, d, rules[0], draw);
      } else {
        ApplyKeepsTidy(t, d, rules[1..], draw);
      }
    }
  }

  lemma UserKeepsTidy(d: SpanData, id: string, propagate: bool)
    requires Tidy(d)
    ensures Tidy(SetUserData(d, id, propagate))
  {
    var e := d.(meta := d.meta - {KEY_PROPAGATED_USER_ID});
    SetMetaReplaces(e, KEY_USER_ID, id, "");
  }

  lemma StepKeepsTidy(y: System, a: Action)
    requires Enabled(y, a) && AllTidy(y) && (a.Create? ==> Tidy(a.data))
    ensures AllTidy(Step(y, a))
  {
    hide Tidy, Seal, SetMeta, SetMetric, TraceModel.TagMetric, SetUserData, SetError, Apply, Asked, Released, Push,
      FinishedOne, AsksKeep;
    match a {
      case BeginPriority(s, p, _) =>
        PlainKeys();
        StaysTidy(y.data[s], KEY_SAMPLING_PRIORITY, p);
      case MarkFinished(s) => FinishedTidy(y.data[s]);
      case TagError(s, yes) => ErrorTidy(y.data[s], yes);
      case Acknowledge(s, _) => SealKeepsTidy(y.trace, s, y.data[s]);
      case TagMeta(s, k, v) => SetMetaReplaces(y.data[s], k, v, k + k + ".");
      case TagMetric(s, k, v) => SetMetricReplaces(y.data[s], k, v, k + k + ".");
      case SetUser(id, propagate) => UserKeepsTidy(y.data[y.trace.root.value], id, propagate);
      case SampleSpan(s, rules, draw) => ApplyKeepsTidy(y.trace, y.data[s], rules, draw);
      case _ =>
    }
  }

  lemma ErrorTidy(d: SpanData, yes: bool)
    ensures Tidy(SetError(d, yes)) <==> Tidy(d)
  {
  }

  lemma FinishedTidy(d: SpanData)
    ensures Tidy(d.(finished := true)) <==> Tidy(d)
  {
  }

  /** In every run of spans created tidy, every span stays tidy: no key has two values. */
  lemma {:induction false} NoKeyTwice(y: System, actions: seq<Action>)
    requires Runs(y, actions) && AllTidy(y)
    requires forall i :: 0 <= i < |actions| && actions[i].Create? ==> Tidy(actions[i].data)
    ensures AllTidy(After(y, actions))
    decreases |actions|
  {
    hide Step, Enabled, AllTidy, Tidy;
    if actions != [] {
      StepKeepsTidy(y, actions[0]);
      NoKeyTwice(Step(y, actions[0]), actions[1..]);
    }
  }

  // ---------- Tags with a meaning of their own ----------

  /** Setting the number "sampling.priority" on an unlocked trace sets its priority, by the manual sampler (4). */
  lemma PriorityTagSets(y: System, s: SpanId, v: int)
    requires In(y, s, Idle) && !y.data[s].finished && !y.trace.locked
    ensures var m := Step(y, TagMetric(s, "sampling.priority", v));
      && Enabled(m, EndPriority(s))
      && var z := Step(m, EndPriority(s));
         && z.trace.priority == Some(v) && z.settings == y.settings + [Setting(v, 4)] && In(z, s, Idle)
         && KEY_SAMPLING_PRIORITY in z.data[s].metrics && z.data[s].metrics[KEY_SAMPLING_PRIORITY] == v
  {
    PlainKeys();
    hide FIELD_KEYS;
    TagStep(y, s, "sampling.priority", v);
    EndStep(Step(y, TagMetric(s, "sampling.priority", v)), s);
  }

  /** The number "manual.keep" asks for priority 2 by the security sampler when it is 5, and for nothing otherwise. */
  lemma ManualKeepSets(y: System, s: SpanId, v: int)
    requires In(y, s, Idle) && !y.data[s].finished && !y.trace.locked
    ensures var m := Step(y, TagMetric(s, "manual.keep", v));
      && (v != 5 ==> m.trace == y.trace && m.settings == y.settings && In(m, s, Idle) && m.data[s].metrics == y.data[s].metrics)
      && (v == 5 ==>
            && Enabled(m, EndPriority(s))
            && var z := Step(m, EndPriority(s)); z.trace.priority == Some(2) && z.settings == y.settings + [Setting(2, 5)])
  {
    hide FIELD_KEYS;
    assert KEY_MANUAL_KEEP[0] == 'm' && KEY_PRIORITY_TAG[0] == 's';
    TagStep(y, s, "manual.keep", v);
    if v == 5 {
      EndStep(Step(y, TagMetric(s, "manual.keep", v)), s);
    }
  }

  lemma TagStep(y: System, s: SpanId, k: string, v: int)
    requires In(y, s, Idle) && !y.data[s].finished
    ensures Step(y, TagMetric(s, k, v)) == y.(
      data := y.data[s := TraceModel.TagMetric(y.data[s], k, v)],
      phase := y.phase[s := if Redirect(k, v).Some? then Prioritizing(Redirect(k, v).value.p, Redirect(k, v).value.sampler) else Idle])
  {
    hide TraceModel.TagMetric;
  }

  lemma EndStep(y: System, s: SpanId)
    requires s in y.phase && s in y.data && y.phase[s].Prioritizing? && !y.trace.locked
    ensures var z := Step(y, EndPriority(s));
      && z.trace.priority == Some(y.phase[s].p) && z.settings == y.settings + [Setting(y.phase[s].p, y.phase[s].sampler)]
      && z.data == y.data && z.phase == y.phase[s := Idle]
  {
  }

  /** SetUser leaves the ID in one place: among the propagating tags, or on the root span. */
  lemma UserIdOnce(y: System, id: string, propagate: bool)
    requires Enabled(y, SetUser(id, propagate))
    ensures var z, r := Step(y, SetUser(id, propagate)), y.trace.root.value;
      && (propagate ==>
            && "_dd.p.usr.id" in z.trace.propagatingTags && z.trace.propagatingTags["_dd.p.usr.id"] == id
            && "usr.id" !in z.data[r].meta)
      && (!propagate ==>
            && "_dd.p.usr.id" !in z.trace.propagatingTags && "_dd.p.usr.id" !in z.data[r].meta
            && "usr.id" in z.data[r].meta && z.data[r].meta["usr.id"] == id)
      && z.trace.propagatingTags - {"_dd.p.usr.id"} == y.trace.propagatingTags - {"_dd.p.usr.id"}
  {
    hide Released;
    assert KEY_USER_ID !in FIELD_KEYS && KEY_USER_ID[0] == 'u' && KEY_PROPAGATED_USER_ID[0] == '_';
  }
}
