/**
 The span on the wire in plain terms: a reader of msgpack maps that knows the keys only as text finds
 each field of the span under its name, and the decoder takes each name for its own field.
 */
module SpanWire {
  import opened Common
  import opened Msgpack
  import opened SpanCodec

  /** The bytes of an ASCII text. */
  function Ascii(text: string): Bytes {
    seq(|text|, i requires 0 <= i < |text| => if text[i] < 128 as char then text[i] as int else 0)
  }

  /** The value under a key of a map with `n` entries: the token after the key, other entries being skipped. */
  function Lookup(n: nat, ts: seq<Token>, key: Bytes): Option<Token> {
    if n == 0 || |ts| < 2 || !ts[0].Str? then None
    else if ts[0].s == key then Some(ts[1])
    else match Skip(1, ts[1..])
      case None => None
      case Some(rest) => Lookup(n - 1, rest, key)
  }

  function Find(ts: seq<Token>, key: Bytes): Option<Token> {
    if ts == [] || !ts[0].Map? then None else Lookup(ts[0].n, ts[1..], key)
  }

  /** The map has this value under the name with this text. */
  predicate Reads(ts: seq<Token>, name: string, value: Token) { Find(ts, Ascii(name)) == Some(value) }

  /** Twelve entries, each field of the span under its name. */
  ghost predicate OnWire(ts: seq<Token>, sp: Span) {
    && ts != [] && ts[0] == Map(12)
    && Reads(ts, "name", Str(sp.name))
    && Reads(ts, "service", Str(sp.service))
    && Reads(ts, "resource", Str(sp.resource))
    && Reads(ts, "type", Str(sp.typ))
    && Reads(ts, "start", Int(sp.start))
    && Reads(ts, "duration", Int(sp.duration))
    && Reads(ts, "meta", Map(|sp.meta|))
    && Reads(ts, "metrics", Map(|sp.metrics|))
    && Reads(ts, "span_id", Int(sp.spanID))
    && Reads(ts, "trace_id", Int(sp.traceID))
    && Reads(ts, "parent_id", Int(sp.parentID))
    && Reads(ts, "error", Int(sp.error))
  }

  // ---------- The names ----------

  lemma KeyName()
    ensures KeyOf(Name) == Ascii("name")
  {
  }

  lemma KeyService()
    ensures KeyOf(Service) == Ascii("service")
  {
  }

  lemma KeyResource()
    ensures KeyOf(Resource) == Ascii("resource")
  {
  }

  lemma KeyType()
    ensures KeyOf(Type) == Ascii("type")
  {
  }

  lemma KeyStart()
    ensures KeyOf(Start) == Ascii("start")
  {
  }

  lemma KeyDuration()
    ensures KeyOf(Duration) == Ascii("duration")
  {
  }

  lemma KeyMeta()
    ensures KeyOf(Meta) == Ascii("meta")
  {
  }

  lemma KeyMetrics()
    ensures KeyOf(Metrics) == Ascii("metrics")
  {
  }

  lemma KeySpanID()
    ensures KeyOf(SpanID) == Ascii("span_id")
  {
  }

  lemma KeyTraceID()
    ensures KeyOf(TraceID) == Ascii("trace_id")
  {
  }

  lemma KeyParentID()
    ensures KeyOf(ParentID) == Ascii("parent_id")
  {
  }

  lemma KeyError()
    ensures KeyOf(Error) == Ascii("error")
  {
  }

  // ---------- Skipping ----------

  lemma {:induction false} SkipMeta(keys: seq<Bytes>, m: map<Bytes, Bytes>, n: nat, rest: seq<Token>)
    requires forall k :: k in keys ==> k in m
    ensures Skip(n + 2 * |keys|, MetaTokens(keys, m) + rest) == Skip(n, rest)
    decreases |keys|
  {
    if keys == [] {
      assert MetaTokens(keys, m) + rest == rest;
    } else {
      var a, b, more := Str(keys[0]), Str(m[keys[0]]), MetaTokens(keys[1..], m) + rest;
      SkipMeta(keys[1..], m, n, rest);
      assert MetaTokens(keys, m) + rest == [a, b] + more;
      SkipTwo(a, b, more, n + 2 * |keys[1..]|);
    }
  }

  lemma {:induction false} SkipMetrics(keys: seq<Bytes>, m: map<Bytes, nat>, n: nat, rest: seq<Token>)
    requires forall k :: k in keys ==> k in m
    ensures Skip(n + 2 * |keys|, MetricTokens(keys, m) + rest) == Skip(n, rest)
    decreases |keys|
  {
    if keys == [] {
      assert MetricTokens(keys, m) + rest == rest;
    } else {
      var a, b, more := Str(keys[0]), Float(m[keys[0]]), MetricTokens(keys[1..], m) + rest;
      SkipMetrics(keys[1..], m, n, rest);
      assert MetricTokens(keys, m) + rest == [a, b] + more;
      SkipTwo(a, b, more, n + 2 * |keys[1..]|);
    }
  }

  lemma SkipTwo(a: Token, b: Token, rest: seq<Token>, n: nat)
    requires !a.Array? && !a.Map? && !b.Array? && !b.Map?
    ensures Skip(n + 2, [a, b] + rest) == Skip(n, rest)
  {
    assert ([a, b] + rest)[1..] == [b] + rest && ([b] + rest)[1..] == rest;
  }

  lemma SkipValue(sp: Span, f: Field, ch: Choice, rest: seq<Token>)
    requires (forall k :: k in ch.metaKeys ==> k in sp.meta) && (forall k :: k in ch.metricKeys ==> k in sp.metrics)
    ensures Skip(1, ValueTokens(sp, f, ch) + rest) == Some(rest)
  {
    hide MetaTokens, MetricTokens;
    var ts := ValueTokens(sp, f, ch) + rest;
    if f == Meta {
      assert ts[1..] == MetaTokens(ch.metaKeys, sp.meta) + rest;
      SkipMeta(ch.metaKeys, sp.meta, 0, rest);
    } else if f == Metrics {
      assert ts[1..] == MetricTokens(ch.metricKeys, sp.metrics) + rest;
      SkipMetrics(ch.metricKeys, sp.metrics, 0, rest);
    } else {
      assert ts[1..] == rest;
    }
  }

  // ---------- Looking up ----------

  /** A field that is written is found under its key, if no other field has that key. */
  lemma {:induction false} LookupField(sp: Span, order: seq<Field>, ch: Choice, f: Field)
    requires (forall k :: k in ch.metaKeys ==> k in sp.meta) && (forall k :: k in ch.metricKeys ==> k in sp.metrics)
    requires f in order
    ensures Lookup(|order|, FieldsTokens(sp, order, ch), KeyOf(f)) == Some(ValueTokens(sp, f, ch)[0])
    decreases |order|
  {
    hide KeyOf, ValueTokens, Skip;
    var g, more := order[0], FieldsTokens(sp, order[1..], ch);
    var value := ValueTokens(sp, g, ch);
    ValueNonempty(sp, g, ch);
    var ts := FieldsTokens(sp, order, ch);
    FirstEntry(Str(KeyOf(g)), value, more);
    if g != f {
      KeysDiffer(f, g);
      SkipValue(sp, g, ch, more);
      LookupField(sp, order[1..], ch, f);
    }
  }

  lemma ValueNonempty(sp: Span, f: Field, ch: Choice)
    requires (forall k :: k in ch.metaKeys ==> k in sp.meta) && (forall k :: k in ch.metricKeys ==> k in sp.metrics)
    ensures |ValueTokens(sp, f, ch)| >= 1
  {
  }

  lemma FirstEntry(key: Token, value: seq<Token>, more: seq<Token>)
    requires |value| >= 1
    ensures var ts := [key] + value + more;
      |ts| >= 2 && ts[0] == key && ts[1] == value[0] && ts[1..] == value + more
  {
  }

  lemma {:induction false} SkipNormal(n: nat, ts: seq<Token>)
    ensures Skip(n, ts).None? ==> Skip(n, NormalAll(ts)).None?
    ensures Skip(n, ts).Some? ==> Skip(n, NormalAll(ts)) == Some(NormalAll(Skip(n, ts).value))
    decreases |ts|
  {
    if n > 0 && ts != [] {
      assert NormalAll(ts)[1..] == NormalAll(ts[1..]);
      match ts[0]
      case Array(k) => SkipNormal(n - 1 + k, ts[1..]);
      case Map(k) => SkipNormal(n - 1 + 2 * k, ts[1..]);
      case _ => SkipNormal(n - 1, ts[1..]);
    }
  }

  lemma {:induction false} LookupNormal(n: nat, ts: seq<Token>, key: Bytes)
    requires Lookup(n, ts, key).Some?
    ensures Lookup(n, NormalAll(ts), key) == Some(Normal(Lookup(n, ts, key).value))
    decreases n
  {
    hide Skip;
    assert NormalAll(ts)[1..] == NormalAll(ts[1..]);
    if ts[0].s != key {
      SkipNormal(1, ts[1..]);
      LookupNormal(n - 1, Skip(1, ts[1..]).value, key);
    }
  }

  /** What a reader of the tokens finds under a field's key. */
  lemma FindField(sp: Span, ch: Choice, f: Field)
    requires GoodChoice(sp, ch)
    ensures Find(NormalAll(SpanTokens(sp, ch)), KeyOf(f)) == Some(Normal(ValueTokens(sp, f, ch)[0]))
    ensures f != Meta && f != Metrics ==> ValueTokens(sp, f, ch) == [Scalar(sp, f)]
    ensures f == Meta ==> ValueTokens(sp, f, ch)[0] == Map(|sp.meta|)
    ensures f == Metrics ==> ValueTokens(sp, f, ch)[0] == Map(|sp.metrics|)
  {
    hide KeyOf, Lookup, FieldsTokens, Scalar;
    LookupField(sp, ch.order, ch, f);
    LookupNormal(|ch.order|, FieldsTokens(sp, ch.order, ch), KeyOf(f));
    var ts := FieldsTokens(sp, ch.order, ch);
    assert NormalAll([Map(|ch.order|)] + ts)[1..] == NormalAll(ts);
  }

  lemma ReadsField(sp: Span, ch: Choice, f: Field, name: string)
    requires GoodChoice(sp, ch) && KeyOf(f) == Ascii(name)
    ensures Reads(NormalAll(SpanTokens(sp, ch)), name,
                  if f == Meta then Map(|sp.meta|) else if f == Metrics then Map(|sp.metrics|) else Normal(Scalar(sp, f)))
  {
    hide KeyOf, Ascii, Find, SpanTokens, GoodChoice;
    FindField(sp, ch, f);
  }

  /** The encoded span, read as a plain map, has the twelve fields under their names. */
  lemma SpanIsOnWire(sp: Span, ch: Choice)
    requires GoodChoice(sp, ch) && |ch.order| == 12
    ensures OnWire(NormalAll(SpanTokens(sp, ch)), sp)
  {
    hide KeyOf, Ascii, Reads, FieldsTokens, GoodChoice;
    KeyName();
    ReadsField(sp, ch, Name, "name");
    KeyService();
    ReadsField(sp, ch, Service, "service");
    KeyResource();
    ReadsField(sp, ch, Resource, "resource");
    KeyType();
    ReadsField(sp, ch, Type, "type");
    KeyStart();
    ReadsField(sp, ch, Start, "start");
    KeyDuration();
    ReadsField(sp, ch, Duration, "duration");
    KeyMeta();
    ReadsField(sp, ch, Meta, "meta");
    KeyMetrics();
    ReadsField(sp, ch, Metrics, "metrics");
    KeySpanID();
    ReadsField(sp, ch, SpanID, "span_id");
    KeyTraceID();
    ReadsField(sp, ch, TraceID, "trace_id");
    KeyParentID();
    ReadsField(sp, ch, ParentID, "parent_id");
    KeyError();
    ReadsField(sp, ch, Error, "error");
  }

  /** The entries of the two maps: each key followed by its own value. */
  lemma {:induction false} MetaEntry(keys: seq<Bytes>, m: map<Bytes, Bytes>, i: nat)
    requires (forall k :: k in keys ==> k in m) && i < |keys|
    ensures |MetaTokens(keys, m)| == 2 * |keys|
    ensures MetaTokens(keys, m)[2 * i] == Str(keys[i]) && MetaTokens(keys, m)[2 * i + 1] == Str(m[keys[i]])
    decreases |keys|
  {
    if |keys| > 1 {
      MetaEntry(keys[1..], m, if i > 0 then i - 1 else 0);
    } else {
      assert MetaTokens(keys[1..], m) == [];
    }
  }

  lemma {:induction false} MetricEntry(keys: seq<Bytes>, m: map<Bytes, nat>, i: nat)
    requires (forall k :: k in keys ==> k in m) && i < |keys|
    ensures |MetricTokens(keys, m)| == 2 * |keys|
    ensures MetricTokens(keys, m)[2 * i] == Str(keys[i]) && MetricTokens(keys, m)[2 * i + 1] == Float(m[keys[i]])
    decreases |keys|
  {
    if |keys| > 1 {
      MetricEntry(keys[1..], m, if i > 0 then i - 1 else 0);
    } else {
      assert MetricTokens(keys[1..], m) == [];
    }
  }

  // ---------- The decoder ----------

  lemma DecodeKnown(sp: Span, f: Field, t: Token, rest: seq<Token>)
    ensures DecodeField(sp, [Str(KeyOf(f)), t] + rest) == DecodeValue(sp, f, [t] + rest)
  {
    hide KeyOf, FieldOf, DecodeValue;
    FieldRoundTrip(f);
    assert ([Str(KeyOf(f)), t] + rest)[1..] == [t] + rest;
  }

  /** A text value under one of four names sets that field and no other. */
  lemma DecodesText(sp: Span, v: Bytes, rest: seq<Token>)
    ensures DecodeField(sp, [Str(Ascii("name")), Str(v)] + rest) == Good(sp.(name := v), rest)
    ensures DecodeField(sp, [Str(Ascii("service")), Str(v)] + rest) == Good(sp.(service := v), rest)
    ensures DecodeField(sp, [Str(Ascii("resource")), Str(v)] + rest) == Good(sp.(resource := v), rest)
    ensures DecodeField(sp, [Str(Ascii("type")), Str(v)] + rest) == Good(sp.(typ := v), rest)
  {
    KeyName();
    KeyService();
    KeyResource();
    KeyType();
    hide KeyOf, Ascii, DecodeField;
    assert ([Str(v)] + rest)[1..] == rest;
    DecodeKnown(sp, Name, Str(v), rest);
    DecodeKnown(sp, Service, Str(v), rest);
    DecodeKnown(sp, Resource, Str(v), rest);
    DecodeKnown(sp, Type, Str(v), rest);
  }

  /** A number under one of six names sets that field and no other, if it fits the field's type. */
  lemma DecodesNumber(sp: Span, v: int, rest: seq<Token>)
    ensures -0x8000_0000_0000_0000 <= v < 0x8000_0000_0000_0000 ==>
      && DecodeField(sp, [Str(Ascii("start")), Int(v)] + rest) == Good(sp.(start := v), rest)
      && DecodeField(sp, [Str(Ascii("duration")), Int(v)] + rest) == Good(sp.(duration := v), rest)
    ensures 0 <= v < 0x1_0000_0000_0000_0000 ==>
      && DecodeField(sp, [Str(Ascii("span_id")), Int(v)] + rest) == Good(sp.(spanID := v), rest)
      && DecodeField(sp, [Str(Ascii("trace_id")), Int(v)] + rest) == Good(sp.(traceID := v), rest)
      && DecodeField(sp, [Str(Ascii("parent_id")), Int(v)] + rest) == Good(sp.(parentID := v), rest)
    ensures -0x8000_0000 <= v < 0x8000_0000 ==>
      DecodeField(sp, [Str(Ascii("error")), Int(v)] + rest) == Good(sp.(error := v), rest)
  {
    KeyStart();
    KeyDuration();
    KeySpanID();
    KeyTraceID();
    KeyParentID();
    KeyError();
    hide KeyOf, Ascii, DecodeField;
    assert ([Int(v)] + rest)[1..] == rest;
    DecodeKnown(sp, Start, Int(v), rest);
    DecodeKnown(sp, Duration, Int(v), rest);
    DecodeKnown(sp, SpanID, Int(v), rest);
    DecodeKnown(sp, TraceID, Int(v), rest);
    DecodeKnown(sp, ParentID, Int(v), rest);
    DecodeKnown(sp, Error, Int(v), rest);
  }

  /** The two maps: one entry more, whose key comes first. */
  lemma DecodesMaps(sp: Span, k: Bytes, v: Bytes, bits: nat, rest: seq<Token>)
    ensures DecodeField(sp, [Str(Ascii("meta")), Map(1)] + ([Str(k), Str(v)] + rest)) == Good(sp.(meta := map[k := v]), rest)
    ensures DecodeField(sp, [Str(Ascii("metrics")), Map(1)] + ([Str(k), Float(bits)] + rest)) == Good(sp.(metrics := map[k := bits]), rest)
  {
    KeyMeta();
    KeyMetrics();
    hide KeyOf, Ascii, DecodeField;
    var a, b := [Str(k), Str(v)] + rest, [Str(k), Float(bits)] + rest;
    DecodeKnown(sp, Meta, Map(1), a);
    DecodeKnown(sp, Metrics, Map(1), b);
    assert ([Map(1)] + a)[1..] == a && ([Map(1)] + b)[1..] == b && a[2..] == rest && b[2..] == rest;
    assert DecodeMeta(1, map[], a) == DecodeMeta(0, map[][k := v], rest);
    assert DecodeMetrics(1, map[], b) == DecodeMetrics(0, map[][k := bits], rest);
  }

  /** An entry under any other name is skipped. */
  lemma DecodesUnknown(sp: Span, key: Bytes, t: Token, rest: seq<Token>)
    requires (forall f: Field :: key != KeyOf(f)) && !t.Array? && !t.Map?
    ensures DecodeField(sp, [Str(key), t] + rest) == Good(sp, rest)
  {
    hide KeyOf;
    assert ([Str(key), t] + rest)[1..] == [t] + rest && ([t] + rest)[1..] == rest;
    assert Skip(0, rest) == Some(rest);
    assert Skip(1, [t] + rest) == Skip(0, rest);
    assert FieldOf(key) == None;
  }
}
