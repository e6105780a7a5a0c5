/**
 The generated msgpack code for spans, span lists and lists of span lists
 (ddtrace/tracer/span_msgp.go), as streams of tokens.
 */
module SpanCodec {
  import opened Common
  import opened Msgpack

  datatype Field =
    | Name | Service | Resource | Type | Start | Duration
    | Meta | Metrics | SpanID | TraceID | ParentID | Error

  /** The order in which EncodeMsg writes the fields. */
  const ENCODED_ORDER: seq<Field> :=
    [Name, Service, Resource, Type, Start, Duration, Meta, Metrics, SpanID, TraceID, ParentID, Error]

  /** Metric values are kept as the 64 bits of the floating-point number. */
  datatype Span = Span(
    name: Bytes, service: Bytes, resource: Bytes, typ: Bytes,
    start: int, duration: int,
    meta: map<Bytes, Bytes>, metrics: map<Bytes, nat>,
    spanID: nat, traceID: nat, parentID: nat, error: int)

  /** A span list may contain nil. */
  datatype Slot = Absent | Present(span: Span)

  function NewSpan(): Span { Span([], [], [], [], 0, 0, map[], map[], 0, 0, 0, 0) }

  function KeyOf(f: Field): Bytes {
    match f
    case Name => [0x6e, 0x61, 0x6d, 0x65]
    case Service => [0x73, 0x65, 0x72, 0x76, 0x69, 0x63, 0x65]
    case Resource => [0x72, 0x65, 0x73, 0x6f, 0x75, 0x72, 0x63, 0x65]
    case Type => [0x74, 0x79, 0x70, 0x65]
    case Start => [0x73, 0x74, 0x61, 0x72, 0x74]
    case Duration => [0x64, 0x75, 0x72, 0x61, 0x74, 0x69, 0x6f, 0x6e]
    case Meta => [0x6d, 0x65, 0x74, 0x61]
    case Metrics => [0x6d, 0x65, 0x74, 0x72, 0x69, 0x63, 0x73]
    case SpanID => [0x73, 0x70, 0x61, 0x6e, 0x5f, 0x69, 0x64]
    case TraceID => [0x74, 0x72, 0x61, 0x63, 0x65, 0x5f, 0x69, 0x64]
    case ParentID => [0x70, 0x61, 0x72, 0x65, 0x6e, 0x74, 0x5f, 0x69, 0x64]
    case Error => [0x65, 0x72, 0x72, 0x6f, 0x72]
  }

  function FieldOf(key: Bytes): Option<Field> {
    if key == KeyOf(Name) then Some(Name)
    else if key == KeyOf(Service) then Some(Service)
    else if key == KeyOf(Resource) then Some(Resource)
    else if key == KeyOf(Type) then Some(Type)
    else if key == KeyOf(Start) then Some(Start)
    else if key == KeyOf(Duration) then Some(Duration)
    else if key == KeyOf(Meta) then Some(Meta)
    else if key == KeyOf(Metrics) then Some(Metrics)
    else if key == KeyOf(SpanID) then Some(SpanID)
    else if key == KeyOf(TraceID) then Some(TraceID)
    else if key == KeyOf(ParentID) then Some(ParentID)
    else if key == KeyOf(Error) then Some(Error)
    else None
  }

  /** The first two bytes and the length tell all keys apart. */
  function Signature(key: Bytes): (int, int, int) {
    if |key| < 2 then (0, 0, 0) else (|key|, key[0], key[1])
  }

  lemma KeysDiffer(f: Field, g: Field)
    requires f != g
    ensures KeyOf(f) != KeyOf(g)
  {
    assert Signature(KeyOf(f)) != Signature(KeyOf(g));
  }

  lemma FieldRoundTrip(f: Field)
    ensures FieldOf(KeyOf(f)) == Some(f)
  {
    forall g: Field | g != f ensures KeyOf(g) != KeyOf(f) {
      KeysDiffer(f, g);
    }
    hide KeyOf;
  }

  // ---------- Encoding ----------

  /** The orders in which the fields and the entries of the two maps are written. */
  datatype Choice = Choice(order: seq<Field>, metaKeys: seq<Bytes>, metricKeys: seq<Bytes>)

  ghost predicate Covers<V>(keys: seq<Bytes>, m: map<Bytes, V>) {
    |keys| == |m| && (forall k :: k in keys <==> k in m)
  }

  ghost predicate GoodChoice(sp: Span, ch: Choice) {
    && |ch.order| < U32 && (forall f: Field :: f in ch.order)
    && Covers(ch.metaKeys, sp.meta) && Covers(ch.metricKeys, sp.metrics)
  }

  /** Every value fits its wire type. */
  ghost predicate Encodable(sp: Span) { EncodableFields(sp) && EncodableMaps(sp) }

  ghost predicate EncodableFields(sp: Span) {
    && Valid(Str(sp.name)) && Valid(Str(sp.service)) && Valid(Str(sp.resource)) && Valid(Str(sp.typ))
    && Valid(Int(sp.start)) && Valid(Int(sp.duration))
    && Valid(Uint(sp.spanID)) && Valid(Uint(sp.traceID)) && Valid(Uint(sp.parentID))
    && -0x8000_0000 <= sp.error < 0x8000_0000
  }

  ghost predicate EncodableMaps(sp: Span) {
    && |sp.meta| < U32 && (forall k :: k in sp.meta ==> |k| < U32 && |sp.meta[k]| < U32)
    && |sp.metrics| < U32 && (forall k :: k in sp.metrics ==> |k| < U32 && sp.metrics[k] < U64)
  }

  function MetaTokens(keys: seq<Bytes>, m: map<Bytes, Bytes>): seq<Token>
    requires forall k :: k in keys ==> k in m
  {
    if keys == [] then [] else [Str(keys[0]), Str(m[keys[0]])] + MetaTokens(keys[1..], m)
  }

  function MetricTokens(keys: seq<Bytes>, m: map<Bytes, nat>): seq<Token>
    requires forall k :: k in keys ==> k in m
  {
    if keys == [] then [] else [Str(keys[0]), Float(m[keys[0]])] + MetricTokens(keys[1..], m)
  }

  /** The value of a field that is not a map. */
  function Scalar(sp: Span, f: Field): Token
    requires f != Meta && f != Metrics
  {
    match f
    case Name => Str(sp.name)
    case Service => Str(sp.service)
    case Resource => Str(sp.resource)
    case Type => Str(sp.typ)
    case Start => Int(sp.start)
    case Duration => Int(sp.duration)
    case SpanID => Uint(sp.spanID)
    case TraceID => Uint(sp.traceID)
    case ParentID => Uint(sp.parentID)
    case Error => Int(sp.error)
  }

  function ValueTokens(sp: Span, f: Field, ch: Choice): seq<Token>
    requires forall k :: k in ch.metaKeys ==> k in sp.meta
    requires forall k :: k in ch.metricKeys ==> k in sp.metrics
  {
    if f == Meta then [Map(|ch.metaKeys|)] + MetaTokens(ch.metaKeys, sp.meta)
    else if f == Metrics then [Map(|ch.metricKeys|)] + MetricTokens(ch.metricKeys, sp.metrics)
    else [Scalar(sp, f)]
  }

  function FieldsTokens(sp: Span, order: seq<Field>, ch: Choice): seq<Token>
    requires forall k :: k in ch.metaKeys ==> k in sp.meta
    requires forall k :: k in ch.metricKeys ==> k in sp.metrics
  {
    if order == [] then []
    else [Str(KeyOf(order[0]))] + ValueTokens(sp, order[0], ch) + FieldsTokens(sp, order[1..], ch)
  }

  function SpanTokens(sp: Span, ch: Choice): seq<Token>
    requires GoodChoice(sp, ch)
  {
    [Map(|ch.order|)] + FieldsTokens(sp, ch.order, ch)
  }

  ghost predicate GoodSlot(s: Slot, ch: Choice) {
    s.Present? ==> Encodable(s.span) && GoodChoice(s.span, ch)
  }

  ghost predicate GoodSlots(list: seq<Slot>, chs: seq<Choice>) {
    |chs| == |list| < U32 && forall i :: 0 <= i < |list| ==> GoodSlot(list[i], chs[i])
  }

  function SlotTokens(s: Slot, ch: Choice): seq<Token>
    requires GoodSlot(s, ch)
  {
    if s.Absent? then [Nil] else SpanTokens(s.span, ch)
  }

  function SlotsTokens(list: seq<Slot>, chs: seq<Choice>): seq<Token>
    requires GoodSlots(list, chs)
  {
    if list == [] then [] else SlotTokens(list[0], chs[0]) + SlotsTokens(list[1..], chs[1..])
  }

  /** spanList.EncodeMsg */
  function ListTokens(list: seq<Slot>, chs: seq<Choice>): seq<Token>
    requires GoodSlots(list, chs)
  {
    [Array(|list|)] + SlotsTokens(list, chs)
  }

  ghost predicate GoodLists(lists: seq<seq<Slot>>, chss: seq<seq<Choice>>) {
    |chss| == |lists| < U32 && forall i :: 0 <= i < |lists| ==> GoodSlots(lists[i], chss[i])
  }

  function ListsBody(lists: seq<seq<Slot>>, chss: seq<seq<Choice>>): seq<Token>
    requires GoodLists(lists, chss)
  {
    if lists == [] then [] else ListTokens(lists[0], chss[0]) + ListsBody(lists[1..], chss[1..])
  }

  /** spanLists.EncodeMsg */
  function ListsTokens(lists: seq<seq<Slot>>, chss: seq<seq<Choice>>): seq<Token>
    requires GoodLists(lists, chss)
  {
    [Array(|lists|)] + ListsBody(lists, chss)
  }

  // ---------- Decoding ----------

  datatype Decoded<+T> = Bad | Good(value: T, rest: seq<Token>)

  function DecodeMeta(n: nat, m: map<Bytes, Bytes>, ts: seq<Token>): Decoded<map<Bytes, Bytes>> {
    if n == 0 then Good(m, ts)
    else if |ts| >= 2 && ts[0].Str? && ts[1].Str? then DecodeMeta(n - 1, m[ts[0].s := ts[1].s], ts[2..])
    else Bad
  }

  function DecodeMetrics(n: nat, m: map<Bytes, nat>, ts: seq<Token>): Decoded<map<Bytes, nat>> {
    if n == 0 then Good(m, ts)
    else if |ts| >= 2 && ts[0].Str? && ts[1].Float? then DecodeMetrics(n - 1, m[ts[0].s := ts[1].bits], ts[2..])
    else Bad
  }

  predicate ReadsInt(ts: seq<Token>, low: int, high: int) {
    ts != [] && ts[0].Int? && low <= ts[0].v < high
  }

  function DecodeValue(sp: Span, f: Field, ts: seq<Token>): Decoded<Span> {
    if ts == [] then Bad
    else
      var t, rest := ts[0], ts[1..];
      match f
      case Name => if t.Str? then Good(sp.(name := t.s), rest) else Bad
      case Service => if t.Str? then Good(sp.(service := t.s), rest) else Bad
      case Resource => if t.Str? then Good(sp.(resource := t.s), rest) else Bad
      case Type => if t.Str? then Good(sp.(typ := t.s), rest) else Bad
      case Start => if ReadsInt(ts, -(U64 / 2), U64 / 2) then Good(sp.(start := t.v), rest) else Bad
      case Duration => if ReadsInt(ts, -(U64 / 2), U64 / 2) then Good(sp.(duration := t.v), rest) else Bad
      case Meta =>
        if !t.Map? then Bad
        else (match DecodeMeta(t.n, map[], rest)
              case Bad => Bad
              case Good(m, more) => Good(sp.(meta := m), more))
      case Metrics =>
        if !t.Map? then Bad
        else (match DecodeMetrics(t.n, map[], rest)
              case Bad => Bad
              case Good(m, more) => Good(sp.(metrics := m), more))
      case SpanID => if ReadsInt(ts, 0, U64) then Good(sp.(spanID := t.v), rest) else Bad
      case TraceID => if ReadsInt(ts, 0, U64) then Good(sp.(traceID := t.v), rest) else Bad
      case ParentID => if ReadsInt(ts, 0, U64) then Good(sp.(parentID := t.v), rest) else Bad
      case Error => if ReadsInt(ts, -0x8000_0000, 0x8000_0000) then Good(sp.(error := t.v), rest) else Bad
  }

  /** Skips n whole objects, as msgp's Skip does for the value of an unknown field. */
  function Skip(n: nat, ts: seq<Token>): Option<seq<Token>>
    decreases |ts|
  {
    if n == 0 then Some(ts)
    else if ts == [] then None
    else match ts[0]
      case Array(k) => Skip(n - 1 + k, ts[1..])
      case Map(k) => Skip(n - 1 + 2 * k, ts[1..])
      case _ => Skip(n - 1, ts[1..])
  }

  function DecodeField(sp: Span, ts: seq<Token>): Decoded<Span> {
    if ts == [] || !ts[0].Str? then Bad
    else match FieldOf(ts[0].s)
      case Some(f) => DecodeValue(sp, f, ts[1..])
      case None =>
        match Skip(1, ts[1..])
        case None => Bad
        case Some(rest) => Good(sp, rest)
  }

  function DecodeFields(n: nat, sp: Span, ts: seq<Token>): Decoded<Span> {
    if n == 0 then Good(sp, ts)
    else match DecodeField(sp, ts)
      case Bad => Bad
      case Good(sp', rest) => DecodeFields(n - 1, sp', rest)
  }

  /** span.DecodeMsg into a new span. */
  function DecodeSpan(ts: seq<Token>): Decoded<Span> {
    if ts == [] || !ts[0].Map? then Bad else DecodeFields(ts[0].n, NewSpan(), ts[1..])
  }

  function DecodeSlot(ts: seq<Token>): Decoded<Slot> {
    if ts != [] && ts[0].Nil? then Good(Absent, ts[1..])
    else match DecodeSpan(ts)
      case Bad => Bad
      case Good(sp, rest) => Good(Present(sp), rest)
  }

  function DecodeSlots(n: nat, ts: seq<Token>): Decoded<seq<Slot>> {
    if n == 0 then Good([], ts)
    else match DecodeSlot(ts)
      case Bad => Bad
      case Good(s, rest) =>
        match DecodeSlots(n - 1, rest)
        case Bad => Bad
        case Good(more, end) => Good([s] + more, end)
  }

  function DecodeList(ts: seq<Token>): Decoded<seq<Slot>> {
    if ts == [] || !ts[0].Array? then Bad else DecodeSlots(ts[0].n, ts[1..])
  }

  function DecodeListsBody(n: nat, ts: seq<Token>): Decoded<seq<seq<Slot>>> {
    if n == 0 then Good([], ts)
    else match DecodeList(ts)
      case Bad => Bad
      case Good(list, rest) =>
        match DecodeListsBody(n - 1, rest)
        case Bad => Bad
        case Good(more, end) => Good([list] + more, end)
  }

  /** spanLists.DecodeMsg of a whole byte stream. */
  function DecodeLists(b: Bytes): Option<seq<seq<Slot>>> {
    match Tokenize(b)
    case None => None
    case Some(ts) =>
      if ts == [] || !ts[0].Array? then None
      else match DecodeListsBody(ts[0].n, ts[1..])
        case Bad => None
        case Good(lists, rest) => Some(lists)
  }

  // ---------- The loop ----------

  /** span.DecodeMsg: assigns one field per announced entry, in the order they arrive. */
  method DecodeSpanMsg(ts: seq<Token>) returns (r: Decoded<Span>)
    ensures r == DecodeSpan(ts)
  {
    hide DecodeField;
    if ts == [] || !ts[0].Map? {
      return Bad;
    }
    var n, z, rest := ts[0].n, NewSpan(), ts[1..];
    while n > 0
      invariant DecodeFields(n, z, rest) == DecodeSpan(ts)
    {
      var field := DecodeField(z, rest);
      if field.Bad? {
        return Bad;
      }
      n, z, rest := n - 1, field.value, field.rest;
    }
    r := Good(z, rest);
  }
}
