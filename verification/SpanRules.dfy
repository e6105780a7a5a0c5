/**
 * Single-span sampling (ddtrace/tracer/rules_sampler.go): the first matching rule decides whether a
 * span of a dropped trace is kept on its own.  Metrics are integers in this model; a rate is
 * recorded in units of 2^-64.
 */
module SpanRules {
  import opened Common
  import opened TraceModel
  import TraceObjects
  import KnuthSampler

  const KEY_APPLIED_RATE := "_dd.rule_psr"
  const KEY_MECHANISM := "_dd.span_sampling.mechanism"
  const KEY_RULE_RATE := "_dd.span_sampling.rule_rate"
  const KEY_MAX_PER_SECOND := "_dd.span_sampling.max_per_second"

  const USER_REJECT: int := -1
  const SAMPLER_RULE_RATE: int := 3
  const MECHANISM_SINGLE_SPAN: int := 8

  type Rate = r: real | r >= 0.0

  /** Patterns are taken as arbitrary tests on names. */
  datatype Rule = Rule(
    service: Option<string -> bool>, exactService: string,
    name: Option<string -> bool>, exactName: string,
    rate: Rate, limited: bool, maxPerSecond: int)

  /** The limiter's answer for one call. */
  datatype Allowance = Allowance(sampled: bool, rate: Rate)

  function Field(d: SpanData, k: string): string { if k in d.fields then d.fields[k] else "" }

  predicate Accepts(pattern: Option<string -> bool>, exact: string, value: string) {
    (pattern.None? || pattern.value(value)) && (exact == "" || exact == value)
  }

  predicate Match(r: Rule, d: SpanData) {
    && Accepts(r.service, r.exactService, Field(d, "service.name"))
    && Accepts(r.name, r.exactName, Field(d, "span.name"))
  }

  function Fixed(rate: Rate): int { (rate * U64 as real).Floor }

  // ---------------------------------------------------------------------
  // What sampling a span does to it and to its trace

  datatype Sampled<S> = Sampled(trace: TraceState<S>, data: SpanData, kept: bool)

  /** span.setSamplingPriority: a finished span is left alone, and so is its trace. */
  function Prioritized<S>(x: Sampled<S>, p: int): Sampled<S> {
    if x.data.finished then x
    else x.(data := SetMetric(x.data, KEY_SAMPLING_PRIORITY, p),
            trace := SetSamplingPriority(x.trace, p, SAMPLER_RULE_RATE))
  }

  function Marked<S>(x: Sampled<S>, r: Rule, rate: Rate): Sampled<S> {
    var d := SetMetric(SetMetric(x.data, KEY_MECHANISM, MECHANISM_SINGLE_SPAN), KEY_RULE_RATE, Fixed(rate));
    x.(data := if r.maxPerSecond != 0 then SetMetric(d, KEY_MAX_PER_SECOND, r.maxPerSecond) else d, kept := true)
  }

  function Fire<S>(t: TraceState<S>, d: SpanData, r: Rule, id: KnuthSampler.TraceId, answer: Allowance): Sampled<S> {
    var x := Sampled(t, SetMetric(d, KEY_APPLIED_RATE, Fixed(r.rate)), false);
    if !KnuthSampler.SampledByRate(id, r.rate) then Prioritized(x, USER_REJECT)
    else if r.limited && !answer.sampled then x
    else Marked(Prioritized(x, USER_KEEP), r, if r.limited then answer.rate else r.rate)
  }

  function Apply<S>(t: TraceState<S>, d: SpanData, rules: seq<Rule>, id: KnuthSampler.TraceId, answer: Allowance): Sampled<S> {
    if rules == [] then Sampled(t, d, false)
    else if Match(rules[0], d) then Fire(t, d, rules[0], id, answer)
    else Apply(t, d, rules[1..], id, answer)
  }

  /** The priority asked for by the first rule that matches, if that rule gets to ask. */
  function Asked(d: SpanData, rules: seq<Rule>, id: KnuthSampler.TraceId, answer: Allowance): Option<int> {
    if rules == [] then None
    else if !Match(rules[0], d) then Asked(d, rules[1..], id, answer)
    else if !KnuthSampler.SampledByRate(id, rules[0].rate) then Some(USER_REJECT)
    else if rules[0].limited && !answer.sampled then None
    else Some(USER_KEEP)
  }

  /** What sampling does to the trace and to the span's own state. */
  lemma {:induction false} ApplySets<S>(t: TraceState<S>, d: SpanData, rules: seq<Rule>, id: KnuthSampler.TraceId, answer: Allowance)
    ensures var x, p := Apply(t, d, rules, id, answer), Asked(d, rules, id, answer);
      && x.data.finished == d.finished && x.data.error == d.error && x.data.errors == d.errors
      && x.trace == (if p.None? || d.finished then t else SetSamplingPriority(t, p.value, SAMPLER_RULE_RATE))
    decreases |rules|
  {
    hide Match, Fire, KnuthSampler.SampledByRate, SetSamplingPriority;
    if rules != [] {
      if Match(rules[0], d) {
        FireSets(t, d, rules[0], id, answer);
      } else {
        ApplySets(t, d, rules[1..], id, answer);
      }
    }
  }

  lemma FireSets<S>(t: TraceState<S>, d: SpanData, r: Rule, id: KnuthSampler.TraceId, answer: Allowance)
    ensures var x := Fire(t, d, r, id, answer);
      && x.data.finished == d.finished && x.data.error == d.error && x.data.errors == d.errors
      && x.trace == (if d.finished || (KnuthSampler.SampledByRate(id, r.rate) && r.limited && !answer.sampled) then t
                     else SetSamplingPriority(t, if KnuthSampler.SampledByRate(id, r.rate) then USER_KEEP else USER_REJECT,
                                              SAMPLER_RULE_RATE))
  {
    hide Fixed, KnuthSampler.SampledByRate, SetSamplingPriority;
  }

  /** singleSpanRulesSampler.apply on a span object and the trace it belongs to. */
  method ApplyRules(rules: seq<Rule>, s: TraceObjects.Span, t: TraceObjects.Trace, id: KnuthSampler.TraceId, answer: Allowance)
    returns (kept: bool)
    modifies s, t
    ensures Sampled(t.View(), s.Data(), kept) == Apply(old(t.View()), old(s.Data()), rules, id, answer)
  {
    hide Match, SetMetric, SetSamplingPriority, Fixed, KnuthSampler.SampledByRate;
    var i := 0;
    assert rules[0..] == rules;
    while i < |rules|
      invariant 0 <= i <= |rules|
      invariant t.View() == old(t.View()) && s.Data() == old(s.Data())
      invariant Apply(t.View(), s.Data(), rules[i..], id, answer) == Apply(old(t.View()), old(s.Data()), rules, id, answer)
    {
      var rule := rules[i];
      assert rules[i..][0] == rule && rules[i..][1..] == rules[i + 1..];
      if Match(rule, SpanData(s.finished, s.fields, s.meta, s.metrics, s.error, s.errors)) {
        kept := FireRule(rule, s, t, id, answer);
        return;
      }
      i := i + 1;
    }
    return false;
  }

  method FireRule(rule: Rule, s: TraceObjects.Span, t: TraceObjects.Trace, id: KnuthSampler.TraceId, answer: Allowance)
    returns (kept: bool)
    modifies s, t
    ensures Sampled(t.View(), s.Data(), kept) == Fire(old(t.View()), old(s.Data()), rule, id, answer)
  {
    hide SetMetric, SetSamplingPriority, Fixed, KnuthSampler.SampledByRate;
    var rate := rule.rate;
    s.SetMetric(KEY_APPLIED_RATE, Fixed(rate));
    if !KnuthSampler.SampledByRate(id, rate) {
      Reprioritize(s, t, USER_REJECT);
      return false;
    }
    if rule.limited {
      rate := answer.rate;
      if !answer.sampled {
        return false;
      }
    }
    Reprioritize(s, t, USER_KEEP);
    s.SetMetric(KEY_MECHANISM, MECHANISM_SINGLE_SPAN);
    s.SetMetric(KEY_RULE_RATE, Fixed(rate));
    if rule.maxPerSecond != 0 {
      s.SetMetric(KEY_MAX_PER_SECOND, rule.maxPerSecond);
    }
    return true;
  }

  method Reprioritize(s: TraceObjects.Span, t: TraceObjects.Trace, p: int)
    modifies s, t
    ensures Sampled(t.View(), s.Data(), false) == Prioritized(Sampled(old(t.View()), old(s.Data()), false), p)
  {
    if s.finished {
      return;
    }
    s.SetMetric(KEY_SAMPLING_PRIORITY, p);
    t.SetSamplingPriority(p, SAMPLER_RULE_RATE);
  }

  // ---------------------------------------------------------------------
  // Which spans are kept

  predicate FirstMatch(rules: seq<Rule>, d: SpanData, i: nat) {
    i < |rules| && Match(rules[i], d) && forall j :: 0 <= j < i ==> !Match(rules[j], d)
  }

  /** Kept is exactly a span whose first matching rule samples its ID and, if limited, is allowed by the limiter. */
  lemma {:induction false} FirstMatchDecides<S>(t: TraceState<S>, d: SpanData, rules: seq<Rule>, id: KnuthSampler.TraceId, answer: Allowance)
    ensures var x := Apply(t, d, rules, id, answer);
            && (x.kept <==> exists i: nat :: FirstMatch(rules, d, i) && KnuthSampler.SampledByRate(id, rules[i].rate)
                                        && (rules[i].limited ==> answer.sampled))
            && ((forall i :: 0 <= i < |rules| ==> !Match(rules[i], d)) ==> x == Sampled(t, d, false))
    decreases |rules|
  {
    hide Match, SetMetric, Fixed, KnuthSampler.SampledByRate, SetSamplingPriority;
    if rules != [] {
      if Match(rules[0], d) {
        assert FirstMatch(rules, d, 0);
      } else {
        var rest := rules[1..];
        FirstMatchDecides(t, d, rest, id, answer);
        assert forall i :: 0 <= i < |rest| ==> rest[i] == rules[i + 1];
        if i: nat :| FirstMatch(rest, d, i) && KnuthSampler.SampledByRate(id, rest[i].rate) && (rest[i].limited ==> answer.sampled) {
          assert FirstMatch(rules, d, i + 1);
        }
        if i: nat :| FirstMatch(rules, d, i) && KnuthSampler.SampledByRate(id, rules[i].rate) && (rules[i].limited ==> answer.sampled) {
          assert FirstMatch(rest, d, i - 1);
        }
      }
    }
  }

  /**
   One rule, spelled out: a span is kept if and only if its service passes the service pattern and equals
   the exact service when there is one, its name likewise, the rate samples its ID, and the limiter, if
   the rule has one, allows it.
   */
  lemma OneRuleKeeps<S>(t: TraceState<S>, d: SpanData, r: Rule, id: KnuthSampler.TraceId, answer: Allowance)
    requires "service.name" in d.fields && "span.name" in d.fields
    ensures var service, name := d.fields["service.name"], d.fields["span.name"];
      Apply(t, d, [r], id, answer).kept <==>
        && (r.service.Some? ==> r.service.value(service)) && (r.exactService != "" ==> r.exactService == service)
        && (r.name.Some? ==> r.name.value(name)) && (r.exactName != "" ==> r.exactName == name)
        && KnuthSampler.SampledByRate(id, r.rate) && (r.limited ==> answer.sampled)
  {
    hide SetMetric, Fixed, KnuthSampler.SampledByRate, SetSamplingPriority;
    assert [r][1..] == [];
  }

  /** A span without a service or a name is matched as if it were empty. */
  lemma MissingFields<S>(t: TraceState<S>, d: SpanData, r: Rule, id: KnuthSampler.TraceId, answer: Allowance)
    ensures var service := if "service.name" in d.fields then d.fields["service.name"] else "";
      var name := if "span.name" in d.fields then d.fields["span.name"] else "";
      Apply(t, d, [r], id, answer).kept ==
      Apply(t, d.(fields := d.fields["service.name" := service]["span.name" := name]), [r], id, answer).kept
  {
    hide SetMetric, Fixed, KnuthSampler.SampledByRate, SetSamplingPriority;
    assert "service.name"[1] == 'e' && "span.name"[1] == 'p';
    assert [r][1..] == [];
  }

  function MetricAt(d: SpanData, k: string): Option<int> { if k in d.metrics then Some(d.metrics[k]) else None }

  /**
   The values of the marks: the first matching rule's rate as the applied rate, in units of 2^-64; on a
   kept span also the mechanism 8, the limiter's rate if the rule is limited and its own rate otherwise,
   and the rule's limit unless it is zero.
   */
  lemma MarkValues<S>(t: TraceState<S>, d: SpanData, rules: seq<Rule>, id: KnuthSampler.TraceId, answer: Allowance, i: nat)
    requires FirstMatch(rules, d, i)
    ensures var x, r := Apply(t, d, rules, id, answer), rules[i];
      && MetricAt(x.data, "_dd.rule_psr") == Some((r.rate * U64 as real).Floor)
      && (x.kept ==>
            && MetricAt(x.data, "_dd.span_sampling.mechanism") == Some(8)
            && MetricAt(x.data, "_dd.span_sampling.rule_rate") == Some(((if r.limited then answer.rate else r.rate) * U64 as real).Floor)
            && (r.maxPerSecond != 0 ==> MetricAt(x.data, "_dd.span_sampling.max_per_second") == Some(r.maxPerSecond)))
      && (!x.kept ==>
            && MetricAt(x.data, "_dd.span_sampling.mechanism") == MetricAt(d, "_dd.span_sampling.mechanism")
            && MetricAt(x.data, "_dd.span_sampling.rule_rate") == MetricAt(d, "_dd.span_sampling.rule_rate"))
  {
    hide Match, KnuthSampler.SampledByRate, Fire;
    ApplyFirst(t, d, rules, id, answer, i);
    FireValues(t, d, rules[i], id, answer);
  }

  lemma {:induction false} ApplyFirst<S>(t: TraceState<S>, d: SpanData, rules: seq<Rule>, id: KnuthSampler.TraceId, answer: Allowance, i: nat)
    requires FirstMatch(rules, d, i)
    ensures Apply(t, d, rules, id, answer) == Fire(t, d, rules[i], id, answer)
    decreases i
  {
    hide Match, Fire;
    if i > 0 {
      assert forall j :: 0 <= j < |rules[1..]| ==> rules[1..][j] == rules[j + 1];
      ApplyFirst(t, d, rules[1..], id, answer, i - 1);
    }
  }

  lemma MarksDiffer()
    ensures KEY_APPLIED_RATE != KEY_MECHANISM && KEY_APPLIED_RATE != KEY_RULE_RATE && KEY_APPLIED_RATE != KEY_MAX_PER_SECOND
    ensures KEY_MECHANISM != KEY_RULE_RATE && KEY_MECHANISM != KEY_MAX_PER_SECOND && KEY_RULE_RATE != KEY_MAX_PER_SECOND
    ensures KEY_SAMPLING_PRIORITY != KEY_APPLIED_RATE && KEY_SAMPLING_PRIORITY != KEY_MECHANISM && KEY_SAMPLING_PRIORITY != KEY_RULE_RATE
  {
    assert |KEY_APPLIED_RATE| == 12 && |KEY_MECHANISM| == 27 && |KEY_RULE_RATE| == 27 && |KEY_MAX_PER_SECOND| == 32;
    assert |KEY_SAMPLING_PRIORITY| == 21 && KEY_MECHANISM[18] == 'm' && KEY_RULE_RATE[18] == 'r';
  }

  lemma MetricSet(d: SpanData, k: string, v: int, other: string)
    ensures MetricAt(SetMetric(d, k, v), other) == if other == k then Some(v) else MetricAt(d, other)
  {
  }

  lemma FireValues<S>(t: TraceState<S>, d: SpanData, r: Rule, id: KnuthSampler.TraceId, answer: Allowance)
    ensures var x := Fire(t, d, r, id, answer);
      && MetricAt(x.data, KEY_APPLIED_RATE) == Some(Fixed(r.rate))
      && (x.kept ==>
            && MetricAt(x.data, KEY_MECHANISM) == Some(8)
            && MetricAt(x.data, KEY_RULE_RATE) == Some(Fixed(if r.limited then answer.rate else r.rate))
            && (r.maxPerSecond != 0 ==> MetricAt(x.data, KEY_MAX_PER_SECOND) == Some(r.maxPerSecond)))
      && (!x.kept ==>
            && MetricAt(x.data, KEY_MECHANISM) == MetricAt(d, KEY_MECHANISM)
            && MetricAt(x.data, KEY_RULE_RATE) == MetricAt(d, KEY_RULE_RATE))
  {
    MarksDiffer();
    hide KnuthSampler.SampledByRate, Fixed, SetSamplingPriority, SetMetric, MetricAt,
      KEY_APPLIED_RATE, KEY_MECHANISM, KEY_RULE_RATE, KEY_MAX_PER_SECOND, KEY_SAMPLING_PRIORITY;
    forall e: SpanData, k: string, v: int, other: string
      ensures MetricAt(SetMetric(e, k, v), other) == if other == k then Some(v) else MetricAt(e, other)
    {
      MetricSet(e, k, v, other);
    }
  }

  // ---------------------------------------------------------------------
  // Finished spans

  const MARKS: set<string> := {KEY_APPLIED_RATE, KEY_MECHANISM, KEY_RULE_RATE, KEY_MAX_PER_SECOND}

  /** Nothing but tags and metrics under the given keys differs. */
  ghost predicate OnlyTouched(d: SpanData, e: SpanData, keys: set<string>) {
    && e.finished == d.finished && e.fields == d.fields && e.error == d.error && e.errors == d.errors
    && e.metrics - keys == d.metrics - keys && e.meta - keys == d.meta - keys
  }

  /** Everything but the four sampling metrics is the same. */
  ghost predicate OnlyMarked(d: SpanData, e: SpanData) { OnlyTouched(d, e, MARKS) }

  lemma MarkOnly(d: SpanData, e: SpanData, k: string, v: int)
    requires OnlyMarked(d, e) && k in MARKS
    ensures OnlyMarked(d, SetMetric(e, k, v))
  {
    var f := SetMetric(e, k, v);
    assert f.metrics - MARKS == e.metrics - MARKS;
    assert f.meta - MARKS == e.meta - MARKS;
  }

  lemma PriorityIsNoMark()
    ensures KEY_SAMPLING_PRIORITY !in MARKS
    ensures KEY_APPLIED_RATE in MARKS && KEY_MECHANISM in MARKS && KEY_RULE_RATE in MARKS && KEY_MAX_PER_SECOND in MARKS
  {
    assert KEY_SAMPLING_PRIORITY[1] == 's' && KEY_APPLIED_RATE[1] == 'd' && KEY_MECHANISM[1] == 'd'
        && KEY_RULE_RATE[1] == 'd' && KEY_MAX_PER_SECOND[1] == 'd';
  }

  /** On a finished span only the sampling metrics are written and the trace is left as it is. */
  lemma {:induction false} FinishedSpanKeepsTrace<S>(t: TraceState<S>, d: SpanData, rules: seq<Rule>, id: KnuthSampler.TraceId, answer: Allowance)
    requires d.finished
    ensures var x := Apply(t, d, rules, id, answer);
            x.trace == t && OnlyMarked(d, x.data)
    decreases |rules|
  {
    hide Match, OnlyMarked, SetMetric, Fixed, MARKS, KnuthSampler.SampledByRate;
    MarkNothing(d);
    if rules != [] {
      if Match(rules[0], d) {
        FireMarks(t, d, rules[0], id, answer);
      } else {
        FinishedSpanKeepsTrace(t, d, rules[1..], id, answer);
      }
    }
  }

  lemma MarkNothing(d: SpanData)
    ensures OnlyMarked(d, d)
  {
  }

  lemma FireMarks<S>(t: TraceState<S>, d: SpanData, r: Rule, id: KnuthSampler.TraceId, answer: Allowance)
    requires d.finished
    ensures var x := Fire(t, d, r, id, answer);
            x.trace == t && OnlyMarked(d, x.data)
  {
    hide OnlyMarked, Fixed, MARKS, KnuthSampler.SampledByRate;
    PriorityIsNoMark();
    MarkNothing(d);
    var rate := if r.limited then answer.rate else r.rate;
    var a := SetMetric(d, KEY_APPLIED_RATE, Fixed(r.rate));
    MarkOnly(d, d, KEY_APPLIED_RATE, Fixed(r.rate));
    var b := SetMetric(a, KEY_MECHANISM, MECHANISM_SINGLE_SPAN);
    MarkOnly(d, a, KEY_MECHANISM, MECHANISM_SINGLE_SPAN);
    var c := SetMetric(b, KEY_RULE_RATE, Fixed(rate));
    MarkOnly(d, b, KEY_RULE_RATE, Fixed(rate));
    MarkOnly(d, c, KEY_MAX_PER_SECOND, r.maxPerSecond);
  }

  lemma MarkedPriority(d: SpanData, e: SpanData)
    requires OnlyMarked(d, e)
    ensures KEY_SAMPLING_PRIORITY in e.metrics <==> KEY_SAMPLING_PRIORITY in d.metrics
    ensures KEY_SAMPLING_PRIORITY in e.metrics ==> e.metrics[KEY_SAMPLING_PRIORITY] == d.metrics[KEY_SAMPLING_PRIORITY]
  {
    hide MARKS;
    PriorityIsNoMark();
    assert KEY_SAMPLING_PRIORITY in e.metrics <==> KEY_SAMPLING_PRIORITY in e.metrics - MARKS;
    assert KEY_SAMPLING_PRIORITY in d.metrics <==> KEY_SAMPLING_PRIORITY in d.metrics - MARKS;
  }

  /** What the rules see of one span: its number and the limiter's answer when it is asked. */
  datatype Draw = Draw(id: KnuthSampler.TraceId, answer: Allowance)
}
