/**
 The generated encoders of ddtrace/tracer/span_msgp.go, byte by byte: the keys are appended as ready
 byte strings, the fields in a fixed order, and the entries of the two maps in whatever order they come.
 */
module SpanEncoder {
  import opened Common
  import opened Msgpack
  import opened SpanCodec
  import SpanRoundTrip
  import SpanWire

  /** The format byte that stands before each key in the generated code. */
  function KeyFormat(f: Field): Byte {
    match f
    case Name => 0xa4
    case Service => 0xa7
    case Resource => 0xa8
    case Type => 0xa4
    case Start => 0xa5
    case Duration => 0xa8
    case Meta => 0xa4
    case Metrics => 0xa7
    case SpanID => 0xa7
    case TraceID => 0xa8
    case ParentID => 0xa9
    case Error => 0xa5
  }

  function KeyLiteral(f: Field): Bytes { [KeyFormat(f)] + KeyOf(f) }

  /** The literals are the msgpack strings of the keys. */
  lemma KeyLiteralIs(f: Field)
    ensures AllValid([Str(KeyOf(f))]) && WriteAll([Str(KeyOf(f))]) == KeyLiteral(f)
  {
    assert KeyFormat(f) == 0xa0 + |KeyOf(f)| && |KeyOf(f)| <= 9;
    hide KeyFormat, KeyOf, WriteAll, AllValid;
    WriteOne(Str(KeyOf(f)));
  }

  lemma WriteOne(t: Token)
    requires Valid(t)
    ensures AllValid([t]) && WriteAll([t]) == Write(t)
  {
    hide Write, Valid;
    assert [t][1..] == [] && WriteAll([]) == [];
  }

  lemma WriteTwo(a: Token, b: Token)
    requires Valid(a) && Valid(b)
    ensures AllValid([a, b]) && WriteAll([a, b]) == Write(a) + Write(b)
  {
    hide Write, Valid;
    WriteOne(a);
    WriteOne(b);
    WriteAllAppend([a], [b]);
    assert [a] + [b] == [a, b];
  }

  // ---------- The two maps ----------

  lemma {:induction false} MetaSnoc(keys: seq<Bytes>, k: Bytes, m: map<Bytes, Bytes>)
    requires (forall x :: x in keys ==> x in m) && k in m
    ensures MetaTokens(keys + [k], m) == MetaTokens(keys, m) + [Str(k), Str(m[k])]
    decreases |keys|
  {
    if keys == [] {
      assert [] + [k] == [k] && [k][1..] == [];
    } else {
      assert (keys + [k])[1..] == keys[1..] + [k];
      MetaSnoc(keys[1..], k, m);
    }
  }

  lemma {:induction false} MetricSnoc(keys: seq<Bytes>, k: Bytes, m: map<Bytes, nat>)
    requires (forall x :: x in keys ==> x in m) && k in m
    ensures MetricTokens(keys + [k], m) == MetricTokens(keys, m) + [Str(k), Float(m[k])]
    decreases |keys|
  {
    if keys == [] {
      assert [] + [k] == [k] && [k][1..] == [];
    } else {
      assert (keys + [k])[1..] == keys[1..] + [k];
      MetricSnoc(keys[1..], k, m);
    }
  }

  /** Both map loops visit each key once: `keys` so far, `left` still to come. */
  ghost predicate Visited<V>(m: map<Bytes, V>, keys: seq<Bytes>, left: set<Bytes>) {
    && left <= m.Keys && |keys| + |left| == |m|
    && (forall k :: k in m <==> k in left || k in keys) && (forall k :: k in keys ==> k !in left)
  }

  lemma VisitNext<V>(m: map<Bytes, V>, keys: seq<Bytes>, left: set<Bytes>, k: Bytes)
    requires Visited(m, keys, left) && k in left
    ensures k in m && (forall x :: x in keys ==> x in m) && Visited(m, keys + [k], left - {k})
  {
    assert |left - {k}| == |left| - 1;
  }

  lemma VisitStart<V>(m: map<Bytes, V>)
    ensures Visited(m, [], m.Keys)
  {
    assert |m.Keys| == |m|;
  }

  lemma VisitEnd<V>(m: map<Bytes, V>, keys: seq<Bytes>)
    requires Visited(m, keys, {})
    ensures Covers(keys, m)
  {
  }

  method EncodeMeta(m: map<Bytes, Bytes>) returns (b: Bytes, ghost keys: seq<Bytes>)
    requires |m| < U32 && forall k :: k in m ==> |k| < U32 && |m[k]| < U32
    ensures Covers(keys, m) && AllValid([Map(|m|)] + MetaTokens(keys, m)) && b == WriteAll([Map(|m|)] + MetaTokens(keys, m))
  {
    hide Visited, MetaTokens, WriteMapHeader, WriteString, WriteAll;
    b := WriteMapHeader(|m|);
    keys := [];
    WriteOne(Map(|m|));
    VisitStart(m);
    NoTokens(m, map[]);
    assert [Map(|m|)] + MetaTokens([], m) == [Map(|m|)];
    var left := m.Keys;
    while left != {}
      invariant Visited(m, keys, left) && forall k :: k in keys ==> k in m
      invariant AllValid([Map(|m|)] + MetaTokens(keys, m)) && b == WriteAll([Map(|m|)] + MetaTokens(keys, m))
      decreases |left|
    {
      var k :| k in left;
      VisitNext(m, keys, left, k);
      MetaSnoc(keys, k, m);
      WriteTwo(Str(k), Str(m[k]));
      WriteAllAppend([Map(|m|)] + MetaTokens(keys, m), [Str(k), Str(m[k])]);
      Shift([Map(|m|)], MetaTokens(keys, m), [Str(k), Str(m[k])]);
      b := b + (WriteString(k) + WriteString(m[k]));
      keys := keys + [k];
      left := left - {k};
    }
    VisitEnd(m, keys);
  }

  method EncodeMetrics(m: map<Bytes, nat>) returns (b: Bytes, ghost keys: seq<Bytes>)
    requires |m| < U32 && forall k :: k in m ==> |k| < U32 && m[k] < U64
    ensures Covers(keys, m) && AllValid([Map(|m|)] + MetricTokens(keys, m)) && b == WriteAll([Map(|m|)] + MetricTokens(keys, m))
  {
    hide Visited, MetricTokens, WriteMapHeader, WriteString, WriteAll, BigEndian;
    b := WriteMapHeader(|m|);
    keys := [];
    WriteOne(Map(|m|));
    VisitStart(m);
    NoTokens(map[], m);
    assert [Map(|m|)] + MetricTokens([], m) == [Map(|m|)];
    var left := m.Keys;
    while left != {}
      invariant Visited(m, keys, left) && forall k :: k in keys ==> k in m
      invariant AllValid([Map(|m|)] + MetricTokens(keys, m)) && b == WriteAll([Map(|m|)] + MetricTokens(keys, m))
      decreases |left|
    {
      var k :| k in left;
      VisitNext(m, keys, left, k);
      MetricSnoc(keys, k, m);
      WriteTwo(Str(k), Float(m[k]));
      WriteAllAppend([Map(|m|)] + MetricTokens(keys, m), [Str(k), Float(m[k])]);
      Shift([Map(|m|)], MetricTokens(keys, m), [Str(k), Float(m[k])]);
      b := b + (WriteString(k) + ([0xcb] + BigEndian(m[k], 8)));
      keys := keys + [k];
      left := left - {k};
    }
    VisitEnd(m, keys);
  }

  lemma NoTokens(m: map<Bytes, Bytes>, n: map<Bytes, nat>)
    ensures MetaTokens([], m) == [] && MetricTokens([], n) == []
  {
  }

  lemma Shift(a: seq<Token>, b: seq<Token>, c: seq<Token>)
    ensures a + b + c == a + (b + c)
  {
  }

  // ---------- A span ----------

  /** The bytes of a field's value. */
  function ValueBytes(sp: Span, f: Field, meta: Bytes, metrics: Bytes): Bytes
    requires Encodable(sp)
  {
    match f
    case Name => WriteString(sp.name)
    case Service => WriteString(sp.service)
    case Resource => WriteString(sp.resource)
    case Type => WriteString(sp.typ)
    case Start => WriteInt(sp.start)
    case Duration => WriteInt(sp.duration)
    case Meta => meta
    case Metrics => metrics
    case SpanID => WriteUint(sp.spanID)
    case TraceID => WriteUint(sp.traceID)
    case ParentID => WriteUint(sp.parentID)
    case Error => WriteInt(sp.error)
  }

  lemma ValueBytesAre(sp: Span, f: Field, ch: Choice, meta: Bytes, metrics: Bytes)
    requires Encodable(sp) && GoodChoice(sp, ch)
    requires AllValid([Map(|sp.meta|)] + MetaTokens(ch.metaKeys, sp.meta))
    requires meta == WriteAll([Map(|sp.meta|)] + MetaTokens(ch.metaKeys, sp.meta))
    requires AllValid([Map(|sp.metrics|)] + MetricTokens(ch.metricKeys, sp.metrics))
    requires metrics == WriteAll([Map(|sp.metrics|)] + MetricTokens(ch.metricKeys, sp.metrics))
    ensures AllValid(ValueTokens(sp, f, ch)) && WriteAll(ValueTokens(sp, f, ch)) == ValueBytes(sp, f, meta, metrics)
  {
    hide MetaTokens, MetricTokens, WriteAll, AllValid;
    ChoiceKeys(sp, ch);
    if f != Meta && f != Metrics {
      SpanRoundTrip.ScalarValid(sp, f);
      WriteOne(Scalar(sp, f));
      ScalarBytes(sp, f, meta, metrics);
    }
  }

  lemma ScalarBytes(sp: Span, f: Field, meta: Bytes, metrics: Bytes)
    requires Encodable(sp) && f != Meta && f != Metrics && Valid(Scalar(sp, f))
    ensures Write(Scalar(sp, f)) == ValueBytes(sp, f, meta, metrics)
  {
    hide WriteString, WriteInt, WriteUint, EncodableMaps;
  }

  lemma {:induction false} FieldsSnoc(sp: Span, order: seq<Field>, f: Field, ch: Choice)
    requires (forall k :: k in ch.metaKeys ==> k in sp.meta) && (forall k :: k in ch.metricKeys ==> k in sp.metrics)
    ensures FieldsTokens(sp, order + [f], ch) == FieldsTokens(sp, order, ch) + ([Str(KeyOf(f))] + ValueTokens(sp, f, ch))
    decreases |order|
  {
    hide ValueTokens, KeyOf;
    if order == [] {
      assert [] + [f] == [f] && [f][1..] == [];
    } else {
      assert (order + [f])[1..] == order[1..] + [f];
      FieldsSnoc(sp, order[1..], f, ch);
    }
  }

  lemma EveryField(f: Field)
    ensures f in ENCODED_ORDER && |ENCODED_ORDER| == 12
  {
    var o := ENCODED_ORDER;
    assert o[0] == Name && o[1] == Service && o[2] == Resource && o[3] == Type && o[4] == Start && o[5] == Duration;
    assert o[6] == Meta && o[7] == Metrics && o[8] == SpanID && o[9] == TraceID && o[10] == ParentID && o[11] == Error;
  }

  lemma FieldBytes(sp: Span, order: seq<Field>, f: Field, ch: Choice, head: seq<Token>, value: Bytes)
    requires (forall k :: k in ch.metaKeys ==> k in sp.meta) && (forall k :: k in ch.metricKeys ==> k in sp.metrics)
    requires AllValid(head + FieldsTokens(sp, order, ch)) && AllValid(ValueTokens(sp, f, ch))
    requires value == WriteAll(ValueTokens(sp, f, ch))
    ensures AllValid(head + FieldsTokens(sp, order + [f], ch))
    ensures WriteAll(head + FieldsTokens(sp, order + [f], ch))
         == WriteAll(head + FieldsTokens(sp, order, ch)) + (KeyLiteral(f) + value)
  {
    hide FieldsTokens, ValueTokens, WriteAll, AllValid, KeyOf, KeyLiteral;
    FieldsSnoc(sp, order, f, ch);
    KeyLiteralIs(f);
    WriteAllAppend([Str(KeyOf(f))], ValueTokens(sp, f, ch));
    WriteAllAppend(head + FieldsTokens(sp, order, ch), [Str(KeyOf(f))] + ValueTokens(sp, f, ch));
    Shift(head, FieldsTokens(sp, order, ch), [Str(KeyOf(f))] + ValueTokens(sp, f, ch));
  }

  /** The fields in the fixed order, after the format byte of a map of twelve. */
  method EncodeFields(sp: Span, meta: Bytes, metrics: Bytes, ghost ch: Choice) returns (b: Bytes)
    requires Encodable(sp) && GoodChoice(sp, ch) && ch.order == ENCODED_ORDER
    requires AllValid([Map(|sp.meta|)] + MetaTokens(ch.metaKeys, sp.meta))
    requires meta == WriteAll([Map(|sp.meta|)] + MetaTokens(ch.metaKeys, sp.meta))
    requires AllValid([Map(|sp.metrics|)] + MetricTokens(ch.metricKeys, sp.metrics))
    requires metrics == WriteAll([Map(|sp.metrics|)] + MetricTokens(ch.metricKeys, sp.metrics))
    ensures AllValid(SpanTokens(sp, ch)) && b == WriteAll(SpanTokens(sp, ch))
  {
    hide Encodable, GoodChoice, FieldsTokens, ValueTokens, WriteAll, AllValid, KeyLiteral, ValueBytes, MetaTokens, MetricTokens;
    EveryField(Name);
    ChoiceKeys(sp, ch);
    TwelveFields(sp, ch);
    var order := ENCODED_ORDER;
    hide ENCODED_ORDER;
    b := [0x8c];
    var i := 0;
    while i < |order|
      invariant 0 <= i <= |order|
      invariant AllValid([Map(12)] + FieldsTokens(sp, order[..i], ch))
      invariant b == WriteAll([Map(12)] + FieldsTokens(sp, order[..i], ch))
    {
      ValueBytesAre(sp, order[i], ch, meta, metrics);
      FieldBytes(sp, order[..i], order[i], ch, [Map(12)], ValueBytes(sp, order[i], meta, metrics));
      assert order[..i + 1] == order[..i] + [order[i]];
      b := b + (KeyLiteral(order[i]) + ValueBytes(sp, order[i], meta, metrics));
      i := i + 1;
    }
    assert order[..i] == order;
  }

  lemma GeneratedChoice(sp: Span, metaKeys: seq<Bytes>, metricKeys: seq<Bytes>)
    requires Covers(metaKeys, sp.meta) && Covers(metricKeys, sp.metrics)
    ensures GoodChoice(sp, Choice(ENCODED_ORDER, metaKeys, metricKeys))
  {
    EveryField(Name);
    forall f: Field ensures f in ENCODED_ORDER {
      EveryField(f);
    }
  }

  /**
   span.EncodeMsg: the fields in ENCODED_ORDER, the entries of the maps as they come; a reader that knows the
   field names only as text finds each field under its name.
   */
  method EncodeSpan(sp: Span) returns (b: Bytes, ghost ch: Choice)
    requires Encodable(sp)
    ensures ch.order == ENCODED_ORDER && GoodChoice(sp, ch)
    ensures AllValid(SpanTokens(sp, ch)) && b == WriteAll(SpanTokens(sp, ch))
    ensures Tokenize(b).Some? && SpanWire.OnWire(Tokenize(b).value, sp)
  {
    hide Covers, GoodChoice, ENCODED_ORDER, WriteAll, AllValid, MetaTokens, MetricTokens, SpanTokens, Tokenize, SpanWire.OnWire;
    var meta, metrics;
    ghost var metaKeys, metricKeys;
    meta, metaKeys := EncodeMeta(sp.meta);
    metrics, metricKeys := EncodeMetrics(sp.metrics);
    ch := Choice(ENCODED_ORDER, metaKeys, metricKeys);
    GeneratedChoice(sp, metaKeys, metricKeys);
    b := EncodeFields(sp, meta, metrics, ch);
    EveryField(Name);
    TokenizeBack(SpanTokens(sp, ch));
    SpanWire.SpanIsOnWire(sp, ch);
  }

  lemma ChoiceKeys(sp: Span, ch: Choice)
    requires GoodChoice(sp, ch)
    ensures (forall k :: k in ch.metaKeys ==> k in sp.meta) && (forall k :: k in ch.metricKeys ==> k in sp.metrics)
    ensures |ch.metaKeys| == |sp.meta| && |ch.metricKeys| == |sp.metrics|
  {
  }

  lemma TwelveFields(sp: Span, ch: Choice)
    requires (forall k :: k in ch.metaKeys ==> k in sp.meta) && (forall k :: k in ch.metricKeys ==> k in sp.metrics)
    ensures AllValid([Map(12)] + FieldsTokens(sp, ENCODED_ORDER[..0], ch))
    ensures WriteAll([Map(12)] + FieldsTokens(sp, ENCODED_ORDER[..0], ch)) == [0x8c]
  {
    WriteOne(Map(12));
    assert [Map(12)] + FieldsTokens(sp, ENCODED_ORDER[..0], ch) == [Map(12)];
  }

  // ---------- Lists ----------

  ghost predicate EncodableSlots(list: seq<Slot>) {
    |list| < U32 && forall i :: 0 <= i < |list| && list[i].Present? ==> Encodable(list[i].span)
  }

  /** Every span was written in the generated order. */
  ghost predicate Generated(list: seq<Slot>, chs: seq<Choice>) {
    GoodSlots(list, chs) && forall i :: 0 <= i < |list| && list[i].Present? ==> chs[i].order == ENCODED_ORDER
  }

  lemma {:induction false} SlotsSnoc(list: seq<Slot>, chs: seq<Choice>, s: Slot, ch: Choice)
    requires GoodSlots(list, chs) && GoodSlot(s, ch) && |list| + 1 < U32
    ensures GoodSlots(list + [s], chs + [ch])
    ensures SlotsTokens(list + [s], chs + [ch]) == SlotsTokens(list, chs) + SlotTokens(s, ch)
    decreases |list|
  {
    hide SlotTokens, GoodSlot;
    if list == [] {
      assert [] + [s] == [s] && [] + [ch] == [ch] && [s][1..] == [] && [ch][1..] == [];
    } else {
      assert (list + [s])[1..] == list[1..] + [s] && (chs + [ch])[1..] == chs[1..] + [ch];
      SlotsSnoc(list[1..], chs[1..], s, ch);
    }
  }

  method EncodeSlot(s: Slot) returns (b: Bytes, ghost ch: Choice)
    requires s.Present? ==> Encodable(s.span)
    ensures GoodSlot(s, ch) && (s.Present? ==> ch.order == ENCODED_ORDER)
    ensures AllValid(SlotTokens(s, ch)) && b == WriteAll(SlotTokens(s, ch))
  {
    if s.Absent? {
      b, ch := [0xc0], Choice([], [], []);
      WriteOne(Nil);
    } else {
      b, ch := EncodeSpan(s.span);
    }
  }

  /** spanList.EncodeMsg */
  method EncodeList(list: seq<Slot>) returns (b: Bytes, ghost chs: seq<Choice>)
    requires EncodableSlots(list)
    ensures Generated(list, chs) && AllValid(ListTokens(list, chs)) && b == WriteAll(ListTokens(list, chs))
  {
    hide SlotTokens, GoodSlot, SlotsTokens, WriteAll, AllValid, WriteArrayHeader, Encodable;
    b := WriteArrayHeader(|list|);
    chs := [];
    WriteOne(Array(|list|));
    NoSlots();
    assert [Array(|list|)] + [] == [Array(|list|)];
    var i := 0;
    while i < |list|
      invariant 0 <= i <= |list| && |chs| == i && Generated(list[..i], chs)
      invariant AllValid([Array(|list|)] + SlotsTokens(list[..i], chs))
      invariant b == WriteAll([Array(|list|)] + SlotsTokens(list[..i], chs))
    {
      var slot;
      ghost var ch;
      slot, ch := EncodeSlot(list[i]);
      assert list[..i + 1] == list[..i] + [list[i]];
      if i + 1 < U32 {
        SlotsSnoc(list[..i], chs, list[i], ch);
      }
      WriteAllAppend([Array(|list|)] + SlotsTokens(list[..i], chs), SlotTokens(list[i], ch));
      Shift([Array(|list|)], SlotsTokens(list[..i], chs), SlotTokens(list[i], ch));
      b := b + slot;
      chs := chs + [ch];
      i := i + 1;
    }
    assert list[..i] == list;
  }

  lemma NoSlots()
    ensures SlotsTokens([], []) == []
  {
  }

  lemma {:induction false} ListsSnoc(lists: seq<seq<Slot>>, chss: seq<seq<Choice>>, list: seq<Slot>, chs: seq<Choice>)
    requires GoodLists(lists, chss) && GoodSlots(list, chs) && |lists| + 1 < U32
    ensures GoodLists(lists + [list], chss + [chs])
    ensures ListsBody(lists + [list], chss + [chs]) == ListsBody(lists, chss) + ListTokens(list, chs)
    decreases |lists|
  {
    hide ListTokens, GoodSlots;
    if lists == [] {
      assert [] + [list] == [list] && [] + [chs] == [chs] && [list][1..] == [] && [chs][1..] == [];
    } else {
      assert (lists + [list])[1..] == lists[1..] + [list] && (chss + [chs])[1..] == chss[1..] + [chs];
      ListsSnoc(lists[1..], chss[1..], list, chs);
    }
  }

  /** spanLists.EncodeMsg, whose bytes decode to the same lists. */
  method EncodeLists(lists: seq<seq<Slot>>) returns (b: Bytes, ghost chss: seq<seq<Choice>>)
    requires |lists| < U32 && forall i :: 0 <= i < |lists| ==> EncodableSlots(lists[i])
    ensures GoodLists(lists, chss) && AllValid(ListsTokens(lists, chss)) && b == WriteAll(ListsTokens(lists, chss))
    ensures DecodeLists(b) == Some(lists)
  {
    hide ListTokens, GoodSlots, ListsBody, WriteAll, AllValid, WriteArrayHeader, EncodableSlots, DecodeLists;
    b := WriteArrayHeader(|lists|);
    chss := [];
    WriteOne(Array(|lists|));
    NoLists();
    assert [Array(|lists|)] + [] == [Array(|lists|)];
    var i := 0;
    while i < |lists|
      invariant 0 <= i <= |lists| && GoodLists(lists[..i], chss)
      invariant AllValid([Array(|lists|)] + ListsBody(lists[..i], chss))
      invariant b == WriteAll([Array(|lists|)] + ListsBody(lists[..i], chss))
    {
      var list;
      ghost var chs;
      list, chs := EncodeList(lists[i]);
      assert lists[..i + 1] == lists[..i] + [lists[i]];
      ListsSnoc(lists[..i], chss, lists[i], chs);
      WriteAllAppend([Array(|lists|)] + ListsBody(lists[..i], chss), ListTokens(lists[i], chs));
      Shift([Array(|lists|)], ListsBody(lists[..i], chss), ListTokens(lists[i], chs));
      b := b + list;
      chss := chss + [chs];
      i := i + 1;
    }
    assert lists[..i] == lists;
    SpanRoundTrip.RoundTrip(lists, chss);
  }

  lemma NoLists()
    ensures ListsBody([], []) == []
  {
  }
}
