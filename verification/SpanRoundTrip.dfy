/** Decoding an encoded list of span lists gives the same spans, whatever the order of fields and map entries. */
module SpanRoundTrip {
  import opened Common
  import opened Msgpack
  import opened SpanCodec

  lemma NormalAppend(xs: seq<Token>, ys: seq<Token>)
    ensures NormalAll(xs + ys) == NormalAll(xs) + NormalAll(ys)
  {}

  lemma NormalCons(x: Token, ys: seq<Token>)
    ensures NormalAll([x] + ys) == [Normal(x)] + NormalAll(ys)
  {}

  function Pick<V>(keys: seq<Bytes>, m: map<Bytes, V>): map<Bytes, V>
    requires forall k :: k in keys ==> k in m
  {
    map k | k in keys :: m[k]
  }

  lemma PickCons<V>(acc: map<Bytes, V>, keys: seq<Bytes>, m: map<Bytes, V>)
    requires keys != [] && forall k :: k in keys ==> k in m
    ensures acc[keys[0] := m[keys[0]]] + Pick(keys[1..], m) == acc + Pick(keys, m)
  {
    assert forall k :: k in keys <==> k == keys[0] || k in keys[1..];
  }

  lemma {:induction false} MetaBack(keys: seq<Bytes>, acc: map<Bytes, Bytes>, m: map<Bytes, Bytes>, rest: seq<Token>)
    requires forall k :: k in keys ==> k in m
    ensures DecodeMeta(|keys|, acc, NormalAll(MetaTokens(keys, m)) + rest) == Good(acc + Pick(keys, m), rest)
    decreases |keys|
  {
    var ts := NormalAll(MetaTokens(keys, m)) + rest;
    if keys == [] {
      assert ts == rest && acc + Pick(keys, m) == acc;
    } else {
      var more := NormalAll(MetaTokens(keys[1..], m));
      NormalAppend([Str(keys[0]), Str(m[keys[0]])], MetaTokens(keys[1..], m));
      assert ts == [Str(keys[0]), Str(m[keys[0]])] + (more + rest);
      hide NormalAll, MetaTokens;
      assert ts[2..] == more + rest;
      MetaBack(keys[1..], acc[keys[0] := m[keys[0]]], m, rest);
      PickCons(acc, keys, m);
    }
  }

  lemma {:induction false} MetricsBack(keys: seq<Bytes>, acc: map<Bytes, nat>, m: map<Bytes, nat>, rest: seq<Token>)
    requires forall k :: k in keys ==> k in m
    ensures DecodeMetrics(|keys|, acc, NormalAll(MetricTokens(keys, m)) + rest) == Good(acc + Pick(keys, m), rest)
    decreases |keys|
  {
    var ts := NormalAll(MetricTokens(keys, m)) + rest;
    if keys == [] {
      assert ts == rest && acc + Pick(keys, m) == acc;
    } else {
      var more := NormalAll(MetricTokens(keys[1..], m));
      NormalAppend([Str(keys[0]), Float(m[keys[0]])], MetricTokens(keys[1..], m));
      assert ts == [Str(keys[0]), Float(m[keys[0]])] + (more + rest);
      hide NormalAll, MetricTokens;
      assert ts[2..] == more + rest;
      MetricsBack(keys[1..], acc[keys[0] := m[keys[0]]], m, rest);
      PickCons(acc, keys, m);
    }
  }

  lemma CoversPick<V>(keys: seq<Bytes>, m: map<Bytes, V>)
    requires Covers(keys, m)
    ensures map[] + Pick(keys, m) == m
  {}

  /** `to` with the one field taken from `from`. */
  function Copy(to: Span, from: Span, f: Field): Span {
    match f
    case Name => to.(name := from.name)
    case Service => to.(service := from.service)
    case Resource => to.(resource := from.resource)
    case Type => to.(typ := from.typ)
    case Start => to.(start := from.start)
    case Duration => to.(duration := from.duration)
    case Meta => to.(meta := from.meta)
    case Metrics => to.(metrics := from.metrics)
    case SpanID => to.(spanID := from.spanID)
    case TraceID => to.(traceID := from.traceID)
    case ParentID => to.(parentID := from.parentID)
    case Error => to.(error := from.error)
  }

  function CopyAll(to: Span, from: Span, order: seq<Field>): Span
    decreases |order|
  {
    if order == [] then to else CopyAll(Copy(to, from, order[0]), from, order[1..])
  }

  predicate Agree(a: Span, b: Span, f: Field) { Copy(a, b, f) == a }

  lemma CopyAgrees(to: Span, from: Span, g: Field, f: Field)
    ensures f == g || Agree(to, from, f) ==> Agree(Copy(to, from, g), from, f)
  {}

  lemma {:induction false} CopyAllAgrees(to: Span, from: Span, order: seq<Field>, f: Field)
    requires f in order || Agree(to, from, f)
    ensures Agree(CopyAll(to, from, order), from, f)
    decreases |order|
  {
    hide Agree, Copy;
    if order != [] {
      CopyAgrees(to, from, order[0], f);
      CopyAllAgrees(Copy(to, from, order[0]), from, order[1..], f);
    }
  }

  lemma AgreeEverywhere(a: Span, b: Span)
    requires forall f: Field :: Agree(a, b, f)
    ensures a == b
  {
    assert Agree(a, b, Name) && Agree(a, b, Service) && Agree(a, b, Resource) && Agree(a, b, Type);
    assert Agree(a, b, Start) && Agree(a, b, Duration) && Agree(a, b, Meta) && Agree(a, b, Metrics);
    assert Agree(a, b, SpanID) && Agree(a, b, TraceID) && Agree(a, b, ParentID) && Agree(a, b, Error);
  }

  lemma ValueBack(to: Span, sp: Span, f: Field, ch: Choice, rest: seq<Token>)
    requires Encodable(sp) && GoodChoice(sp, ch)
    ensures DecodeValue(to, f, NormalAll(ValueTokens(sp, f, ch)) + rest) == Good(Copy(to, sp, f), rest)
  {
    hide Encodable;
    if f == Meta {
      MapValueBack(|ch.metaKeys|, MetaTokens(ch.metaKeys, sp.meta), rest);
      hide NormalAll, MetaTokens, DecodeMeta;
      MetaBack(ch.metaKeys, map[], sp.meta, rest);
      CoversPick(ch.metaKeys, sp.meta);
    } else if f == Metrics {
      MapValueBack(|ch.metricKeys|, MetricTokens(ch.metricKeys, sp.metrics), rest);
      hide NormalAll, MetricTokens, DecodeMetrics;
      MetricsBack(ch.metricKeys, map[], sp.metrics, rest);
      CoversPick(ch.metricKeys, sp.metrics);
    } else {
      ScalarBack(to, sp, f, ch, rest);
    }
  }

  lemma ScalarBack(to: Span, sp: Span, f: Field, ch: Choice, rest: seq<Token>)
    requires Encodable(sp) && GoodChoice(sp, ch) && f != Meta && f != Metrics
    ensures DecodeValue(to, f, NormalAll(ValueTokens(sp, f, ch)) + rest) == Good(Copy(to, sp, f), rest)
  {
    hide DecodeMeta, DecodeMetrics, MetaTokens, MetricTokens, NormalAll;
    var t := ValueTokens(sp, f, ch)[0];
    assert ValueTokens(sp, f, ch) == [t];
    OneToken(t, rest);
  }

  lemma OneToken(t: Token, rest: seq<Token>)
    ensures NormalAll([t]) + rest == [Normal(t)] + rest && ([Normal(t)] + rest)[1..] == rest
  {}

  lemma MapValueBack(n: nat, body: seq<Token>, rest: seq<Token>)
    ensures var ts := NormalAll([Map(n)] + body) + rest; |ts| > 0 && ts[0] == Map(n) && ts[1..] == NormalAll(body) + rest
  {
    NormalCons(Map(n), body);
    assert [Map(n)] + NormalAll(body) + rest == [Map(n)] + (NormalAll(body) + rest);
  }

  lemma NormalNothing(rest: seq<Token>)
    ensures NormalAll([]) + rest == rest
  {}

  /** A key, its value and what follows, as the decoder meets them. */
  lemma NormalField(key: Token, value: seq<Token>, more: seq<Token>, rest: seq<Token>)
    requires key.Str?
    ensures var ts := NormalAll([key] + value + more) + rest;
      ts != [] && ts[0] == key && ts[1..] == NormalAll(value) + (NormalAll(more) + rest)
  {
    NormalAppend([key] + value, more);
    NormalCons(key, value);
    hide NormalAll;
    assert [key] + NormalAll(value) + NormalAll(more) + rest == [key] + (NormalAll(value) + (NormalAll(more) + rest));
  }

  /** Decoding fields in any order copies exactly those fields. */
  lemma {:induction false} FieldsBack(to: Span, sp: Span, order: seq<Field>, ch: Choice, rest: seq<Token>)
    requires Encodable(sp) && GoodChoice(sp, ch)
    ensures DecodeFields(|order|, to, NormalAll(FieldsTokens(sp, order, ch)) + rest) == Good(CopyAll(to, sp, order), rest)
    decreases |order|
  {
    hide Encodable, ValueTokens, DecodeValue, Copy, FieldOf, KeyOf, Skip, NormalAll;
    if order == [] {
      NormalNothing(rest);
    } else {
      var f := order[0];
      var value, more := ValueTokens(sp, f, ch), FieldsTokens(sp, order[1..], ch);
      var after := NormalAll(more) + rest;
      NormalField(Str(KeyOf(f)), value, more, rest);
      FieldRoundTrip(f);
      ValueBack(to, sp, f, ch, after);
      FieldsBack(Copy(to, sp, f), sp, order[1..], ch, rest);
    }
  }

  /** However its fields and its map entries are ordered, a span is decoded to itself. */
  lemma SpanBack(sp: Span, ch: Choice, rest: seq<Token>)
    requires Encodable(sp) && GoodChoice(sp, ch)
    ensures DecodeSpan(NormalAll(SpanTokens(sp, ch)) + rest) == Good(sp, rest)
  {
    hide Encodable, FieldsTokens, DecodeFields, NormalAll;
    MapValueBack(|ch.order|, FieldsTokens(sp, ch.order, ch), rest);
    FieldsBack(NewSpan(), sp, ch.order, ch, rest);
    forall f: Field ensures Agree(CopyAll(NewSpan(), sp, ch.order), sp, f) {
      CopyAllAgrees(NewSpan(), sp, ch.order, f);
    }
    AgreeEverywhere(CopyAll(NewSpan(), sp, ch.order), sp);
  }

  lemma SlotBack(s: Slot, ch: Choice, rest: seq<Token>)
    requires GoodSlot(s, ch)
    ensures DecodeSlot(NormalAll(SlotTokens(s, ch)) + rest) == Good(s, rest)
  {
    if s.Absent? {
      assert NormalAll([Nil]) + rest == [Nil] + rest;
    } else {
      MapValueBack(|ch.order|, FieldsTokens(s.span, ch.order, ch), rest);
      hide Encodable, FieldsTokens, DecodeSpan, NormalAll;
      SpanBack(s.span, ch, rest);
    }
  }

  lemma {:induction false} SlotsBack(list: seq<Slot>, chs: seq<Choice>, rest: seq<Token>)
    requires GoodSlots(list, chs)
    ensures DecodeSlots(|list|, NormalAll(SlotsTokens(list, chs)) + rest) == Good(list, rest)
    decreases |list|
  {
    hide GoodSlot, SlotTokens, DecodeSlot;
    var ts := NormalAll(SlotsTokens(list, chs)) + rest;
    if list == [] {
      assert ts == rest;
    } else {
      var first, more := SlotTokens(list[0], chs[0]), SlotsTokens(list[1..], chs[1..]);
      NormalAppend(first, more);
      assert ts == NormalAll(first) + (NormalAll(more) + rest);
      hide NormalAll, SlotsTokens;
      SlotBack(list[0], chs[0], NormalAll(more) + rest);
      SlotsBack(list[1..], chs[1..], rest);
      assert [list[0]] + list[1..] == list;
    }
  }

  lemma ListBack(list: seq<Slot>, chs: seq<Choice>, rest: seq<Token>)
    requires GoodSlots(list, chs)
    ensures DecodeList(NormalAll(ListTokens(list, chs)) + rest) == Good(list, rest)
  {
    var body := SlotsTokens(list, chs);
    NormalCons(Array(|list|), body);
    hide NormalAll, SlotsTokens, DecodeSlots, GoodSlots;
    assert [Array(|list|)] + NormalAll(body) + rest == [Array(|list|)] + (NormalAll(body) + rest);
    SlotsBack(list, chs, rest);
  }

  lemma {:induction false} ListsBodyBack(lists: seq<seq<Slot>>, chss: seq<seq<Choice>>)
    requires GoodLists(lists, chss)
    ensures DecodeListsBody(|lists|, NormalAll(ListsBody(lists, chss))) == Good(lists, [])
    decreases |lists|
  {
    hide GoodSlots, ListTokens, DecodeList;
    var ts := NormalAll(ListsBody(lists, chss));
    if lists == [] {
      assert ts == [];
    } else {
      var first, more := ListTokens(lists[0], chss[0]), ListsBody(lists[1..], chss[1..]);
      NormalAppend(first, more);
      hide NormalAll, ListsBody;
      ListBack(lists[0], chss[0], NormalAll(more));
      ListsBodyBack(lists[1..], chss[1..]);
      assert [lists[0]] + lists[1..] == lists;
    }
  }

  // ---------- Every token that is written is valid ----------

  lemma {:induction false} MetaValid(keys: seq<Bytes>, m: map<Bytes, Bytes>)
    requires forall k :: k in keys ==> k in m && |k| < U32 && |m[k]| < U32
    ensures AllValid(MetaTokens(keys, m))
  {
    if keys != [] {
      MetaValid(keys[1..], m);
    }
  }

  lemma {:induction false} MetricsValid(keys: seq<Bytes>, m: map<Bytes, nat>)
    requires forall k :: k in keys ==> k in m && |k| < U32 && m[k] < U64
    ensures AllValid(MetricTokens(keys, m))
  {
    if keys != [] {
      MetricsValid(keys[1..], m);
    }
  }

  lemma {:induction false} FieldsValid(sp: Span, order: seq<Field>, ch: Choice)
    requires Encodable(sp) && GoodChoice(sp, ch)
    ensures AllValid(FieldsTokens(sp, order, ch))
  {
    hide Encodable, ValueTokens, KeyOf, Valid;
    if order != [] {
      var f := order[0];
      FieldsValid(sp, order[1..], ch);
      ValueValid(sp, f, ch);
      KeyIsShort(f);
    }
  }

  lemma KeyIsShort(f: Field)
    ensures Valid(Str(KeyOf(f)))
  {}

  lemma ScalarValid(sp: Span, f: Field)
    requires Encodable(sp) && f != Meta && f != Metrics
    ensures Valid(Scalar(sp, f))
  {
    hide EncodableMaps;
  }

  lemma ValueValid(sp: Span, f: Field, ch: Choice)
    requires Encodable(sp) && GoodChoice(sp, ch)
    ensures AllValid(ValueTokens(sp, f, ch))
  {
    hide MetaTokens, MetricTokens, EncodableFields, Scalar;
    if f == Meta {
      MetaValid(ch.metaKeys, sp.meta);
    } else if f == Metrics {
      MetricsValid(ch.metricKeys, sp.metrics);
    } else {
      ScalarValid(sp, f);
    }
  }

  lemma {:induction false} SlotsValid(list: seq<Slot>, chs: seq<Choice>)
    requires GoodSlots(list, chs)
    ensures AllValid(SlotsTokens(list, chs))
    decreases |list|
  {
    if list != [] {
      if list[0].Present? {
        assert GoodSlot(list[0], chs[0]);
        FieldsValid(list[0].span, chs[0].order, chs[0]);
      }
      hide Valid, FieldsTokens, GoodSlot, Encodable, GoodChoice;
      assert AllValid(SlotTokens(list[0], chs[0])) by { SlotValid(list[0], chs[0]); }
      SlotsValid(list[1..], chs[1..]);
    }
  }

  lemma SlotValid(s: Slot, ch: Choice)
    requires GoodSlot(s, ch)
    ensures AllValid(SlotTokens(s, ch))
  {
    if s.Present? {
      FieldsValid(s.span, ch.order, ch);
    }
    hide FieldsTokens;
  }

  lemma ListValid(list: seq<Slot>, chs: seq<Choice>)
    requires GoodSlots(list, chs)
    ensures AllValid(ListTokens(list, chs))
  {
    SlotsValid(list, chs);
    hide SlotsTokens;
  }

  lemma {:induction false} ListsBodyValid(lists: seq<seq<Slot>>, chss: seq<seq<Choice>>)
    requires GoodLists(lists, chss)
    ensures AllValid(ListsBody(lists, chss))
    decreases |lists|
  {
    hide Valid, ListTokens, GoodSlots;
    if lists != [] {
      ListValid(lists[0], chss[0]);
      ListsBodyValid(lists[1..], chss[1..]);
    }
  }

  lemma ListsValid(lists: seq<seq<Slot>>, chss: seq<seq<Choice>>)
    requires GoodLists(lists, chss)
    ensures AllValid(ListsTokens(lists, chss))
  {
    ListsBodyValid(lists, chss);
    hide ListsBody;
  }

  /** The bytes of any list of span lists decode to the same lists, nil spans included. */
  lemma RoundTrip(lists: seq<seq<Slot>>, chss: seq<seq<Choice>>)
    requires GoodLists(lists, chss)
    ensures AllValid(ListsTokens(lists, chss))
    ensures DecodeLists(WriteAll(ListsTokens(lists, chss))) == Some(lists)
  {
    var ts, body := ListsTokens(lists, chss), ListsBody(lists, chss);
    ListsValid(lists, chss);
    TokenizeBack(ts);
    NormalCons(Array(|lists|), body);
    ListsBodyBack(lists, chss);
    hide NormalAll, ListsBody, WriteAll, Tokenize, DecodeListsBody;
    assert ([Array(|lists|)] + NormalAll(body))[1..] == NormalAll(body);
  }
}
