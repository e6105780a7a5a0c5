/** The B3 propagator (ddtrace/tracer/textmap.go): zero-padded hexadecimal identifiers and a sampled flag. */
module B3 {
  import opened Common
  import opened Numerals
  import opened TraceModel
  import opened Propagation

  const TRACE_ID := "x-b3-traceid"
  const SPAN_ID := "x-b3-spanid"
  const SAMPLED := "x-b3-sampled"

  /** The last sixteen characters. */
  function LowDigits(v: string): string { if |v| > 16 then v[|v| - 16..] else v }

  function Read(c: Context, h: Header): Option<Context> {
    var key := ToLower(h.key);
    if key == TRACE_ID then
      match ParseUint(LowDigits(h.value), 16)
      case None => None
      case Some(id) => Some(c.(traceID := id))
    else if key == SPAN_ID then
      match ParseUint(h.value, 16)
      case None => None
      case Some(id) => Some(c.(spanID := id))
    else if key == SAMPLED then
      match ParseInt(h.value)
      case None => None
      case Some(p) => Some(c.(trace := SetSamplingPriority(c.trace, p, SAMPLER_UNKNOWN)))
    else Some(c)
  }

  function ReadAll(headers: seq<Header>): Option<Context> {
    if headers == [] then Some(EmptyContext())
    else match ReadAll(headers[..|headers| - 1])
      case None => None
      case Some(c) => Read(c, headers[|headers| - 1])
  }

  function Extract(headers: seq<Header>): Extraction {
    match ReadAll(headers)
    case None => Corrupted
    case Some(c) => if c.traceID == 0 || c.spanID == 0 then NotFound else Extracted(c)
  }

  /** extractTextMap of propagatorB3: stops at the first corrupt header. */
  method ExtractTextMap(headers: seq<Header>) returns (r: Extraction)
    ensures r == Extract(headers)
  {
    var c := EmptyContext();
    for i := 0 to |headers|
      invariant ReadAll(headers[..i]) == Some(c)
    {
      assert headers[..i + 1][..i] == headers[..i];
      var next := Read(c, headers[i]);
      if next.None? {
        StaysCorrupted(headers, i + 1);
        return Corrupted;
      }
      c := next.value;
    }
    assert headers[..|headers|] == headers;
    r := if c.traceID == 0 || c.spanID == 0 then NotFound else Extracted(c);
  }

  lemma {:induction false} StaysCorrupted(headers: seq<Header>, i: nat)
    requires i <= |headers| && ReadAll(headers[..i]) == None
    ensures ReadAll(headers) == None
    decreases |headers|
  {
    if i == |headers| {
      assert headers[..i] == headers;
    } else {
      assert headers[..|headers| - 1][..i] == headers[..i];
      StaysCorrupted(headers[..|headers| - 1], i);
    }
  }

  // ---------- What any headers say ----------

  predicate Parses(name: string, value: string) {
    && (name == TRACE_ID ==> ParseUint(LowDigits(value), 16).Some?)
    && (name == SPAN_ID ==> ParseUint(value, 16).Some?)
    && (name == SAMPLED ==> ParseInt(value).Some?)
  }

  predicate Corrupt(hs: seq<Header>) {
    exists i :: 0 <= i < |hs| && !Parses(ToLower(hs[i].key), hs[i].value)
  }

  function Sets(name: string, value: string, slot: Slot): Option<Value> {
    if name == TRACE_ID then
      (if slot == TraceSlot && ParseUint(LowDigits(value), 16).Some? then Some(Id(ParseUint(LowDigits(value), 16).value)) else None)
    else if name == SPAN_ID then
      (if slot == ParentSlot && ParseUint(value, 16).Some? then Some(Id(ParseUint(value, 16).value)) else None)
    else if name == SAMPLED then
      (if slot == PrioritySlot && ParseInt(value).Some? then Some(Level(ParseInt(value).value)) else None)
    else None
  }

  /** The last value written into a slot. */
  function Final(hs: seq<Header>, slot: Slot): Option<Value> {
    if hs == [] then None
    else
      var x := Sets(ToLower(hs[|hs| - 1].key), hs[|hs| - 1].value, slot);
      if x.Some? then x else Final(hs[..|hs| - 1], slot)
  }

  /** The context with the last value of each slot. */
  function Said(hs: seq<Header>): Context {
    EmptyContext().(traceID := IdIn(Final(hs, TraceSlot)), spanID := IdIn(Final(hs, ParentSlot)),
                    trace := NewTrace().(priority := LevelIn(Final(hs, PrioritySlot))))
  }

  lemma FinalSnoc(hs: seq<Header>, h: Header, slot: Slot)
    ensures var x := Sets(ToLower(h.key), h.value, slot); Final(hs + [h], slot) == if x.Some? then x else Final(hs, slot)
  {
    assert (hs + [h])[..|hs|] == hs;
  }

  lemma ReadSaid(hs: seq<Header>, h: Header)
    ensures Read(Said(hs), h).Some? <==> Parses(ToLower(h.key), h.value)
    ensures Read(Said(hs), h).Some? ==> Read(Said(hs), h).value == Said(hs + [h])
  {
    hide Final, ParseUint, ParseInt, ToLower, LowDigits;
    NamesDiffer();
    FinalSnoc(hs, h, TraceSlot);
    FinalSnoc(hs, h, ParentSlot);
    FinalSnoc(hs, h, PrioritySlot);
  }

  /** Reading any headers, repeated names included: an error iff some value does not parse, otherwise the last values. */
  lemma {:induction false} ReadAllMeans(hs: seq<Header>)
    ensures ReadAll(hs).None? <==> Corrupt(hs)
    ensures ReadAll(hs).Some? ==> ReadAll(hs).value == Said(hs)
    decreases |hs|
  {
    hide Read, Parses, ToLower, Sets;
    if hs != [] {
      var front, h := hs[..|hs| - 1], hs[|hs| - 1];
      assert hs == front + [h];
      ReadAllMeans(front);
      ReadSaid(front, h);
      CorruptSnoc(front, h);
    }
  }

  lemma CorruptSnoc(hs: seq<Header>, h: Header)
    ensures Corrupt(hs + [h]) <==> Corrupt(hs) || !Parses(ToLower(h.key), h.value)
  {
    hide Parses, ToLower;
    var all := hs + [h];
    if Corrupt(hs) {
      var i :| 0 <= i < |hs| && !Parses(ToLower(hs[i].key), hs[i].value);
      assert all[i] == hs[i];
    }
    if !Parses(ToLower(h.key), h.value) {
      assert all[|hs|] == h;
    }
  }

  // ---------- Long identifiers ----------

  /** The last digit of a numeral. */
  lemma LastDigit(s: string)
    requires s != ""
    ensures var v, d := Numerals.Value(s[..|s| - 1], 16), DigitValue(s[|s| - 1]);
      && (Numerals.Value(s, 16).Some? <==> v.Some? && d.Some? && d.value < 16)
      && (Numerals.Value(s, 16).Some? ==> Numerals.Value(s, 16).value == v.value * 16 + d.value)
  {
  }

  lemma {:induction false} ValueAppend(p: string, s: string)
    requires Numerals.Value(p, 16).Some? && Numerals.Value(s, 16).Some?
    ensures Numerals.Value(p + s, 16) == Some(Numerals.Value(p, 16).value * Pow16(|s|) + Numerals.Value(s, 16).value)
    ensures Numerals.Value(s, 16).value < Pow16(|s|)
    decreases |s|
  {
    hide Numerals.Value, DigitValue;
    if s == "" {
      assert p + s == p;
      EmptyValue();
    } else {
      var n := |s| - 1;
      assert (p + s)[..|p + s| - 1] == p + s[..n] && (p + s)[|p + s| - 1] == s[n];
      LastDigit(s);
      LastDigit(p + s);
      ValueAppend(p, s[..n]);
      Shift16(Numerals.Value(p, 16).value, Pow16(n), Numerals.Value(s[..n], 16).value);
    }
  }

  lemma Shift16(a: nat, b: nat, c: nat)
    ensures (a * b + c) * 16 == a * (16 * b) + c * 16
  {
  }

  lemma {:induction false} ValueSplit(p: string, s: string)
    requires Numerals.Value(p + s, 16).Some?
    ensures Numerals.Value(p, 16).Some? && Numerals.Value(s, 16).Some?
    decreases |s|
  {
    hide Numerals.Value, DigitValue;
    if s == "" {
      assert p + s == p;
      EmptyValue();
    } else {
      var n := |s| - 1;
      assert (p + s)[..|p + s| - 1] == p + s[..n] && (p + s)[|p + s| - 1] == s[n];
      LastDigit(s);
      LastDigit(p + s);
      ValueSplit(p, s[..n]);
    }
  }

  /** A trace ID of any length in hexadecimal is taken modulo 2^64. */
  lemma TraceIdModulo(v: string)
    requires v != "" && Numerals.Value(v, 16).Some?
    ensures ParseUint(LowDigits(v), 16) == Some(Numerals.Value(v, 16).value % U64)
  {
    hide Numerals.Value;
    var low := LowDigits(v);
    var p := v[..|v| - |low|];
    assert v == p + low;
    ValueSplit(p, low);
    ValueAppend(p, low);
    Pow16Word();
    if |v| > 16 {
      Remainder(Numerals.Value(p, 16).value, Numerals.Value(low, 16).value);
    } else {
      ShortValue(low);
    }
  }

  lemma Remainder(a: nat, b: nat)
    requires b < U64
    ensures (a * U64 + b) % U64 == b
  {
  }

  lemma ShortValue(s: string)
    requires |s| <= 16 && Numerals.Value(s, 16).Some?
    ensures Numerals.Value(s, 16).value < U64
  {
    hide Numerals.Value;
    var zeros := Zeros(16 - |s|);
    ZerosValue(16 - |s|, s, 16);
    assert Numerals.Value("", 16) == Some(0) by { EmptyValue(); }
    ValueAppend("", zeros + s);
    assert "" + (zeros + s) == zeros + s;
    Pow16Word();
  }

  lemma EmptyValue()
    ensures Numerals.Value("", 16) == Some(0)
  {
  }

  /**
   Whatever stands before the last sixteen digits of a trace ID is ignored, whereas a span ID is read
   whole; the names are those of the B3 headers, in any letter case.
   */
  lemma LongTraceId(prefix: string, n: nat, m: nat, k1: string, k2: string)
    requires 0 < n < U64 && 0 < m < U64 && ToLower(k1) == "x-b3-traceid" && ToLower(k2) == "x-b3-spanid"
    ensures Extract([Header(k1, prefix + Hex(n, 16)), Header(k2, Hex(m, 16))])
         == Extracted(EmptyContext().(traceID := n, spanID := m))
  {
    hide ToLower, ParseUint, Hex, ParseInt;
    HexRoundTrip(n, 16);
    HexRoundTrip(m, 16);
    var h1, h2 := Header(k1, prefix + Hex(n, 16)), Header(k2, Hex(m, 16));
    assert LowDigits(h1.value) == Hex(n, 16);
    NamesDiffer();
    assert [h1, h2] == [] + [h1] + [h2] && [h1, h2][..1] == [h1] && [h1][..0] == [];
    assert ReadAll([]) == Some(EmptyContext());
    assert ReadAll([h1]) == Some(EmptyContext().(traceID := n));
  }

  /** A span ID that does not fit 64 bits is an error. */
  lemma LongSpanId(v: string)
    requires Numerals.Value(v, 16).Some? && Numerals.Value(v, 16).value >= U64
    ensures !Parses("x-b3-spanid", v)
  {
    hide LowDigits;
    assert v != "";
  }

  function SampledText(p: int): string { if p >= 1 then "1" else "0" }

  /** Everything the B3 injectTextMap writes. */
  function Injected(c: Context): map<string, string> {
    var ids := map[TRACE_ID := Hex(c.traceID, 16), SPAN_ID := Hex(c.spanID, 16)];
    if c.trace.priority.Some? then ids[SAMPLED := SampledText(c.trace.priority.value)] else ids
  }

  method InjectTextMap(c: Context, carrier: map<string, string>) returns (r: Option<map<string, string>>)
    ensures r.None? <==> c.traceID == 0 || c.spanID == 0
    ensures r.Some? ==> r.value == carrier + Injected(c)
  {
    if c.traceID == 0 || c.spanID == 0 {
      return None;
    }
    hide Hex;
    var out := carrier[TRACE_ID := Hex(c.traceID, 16)];
    out := out[SPAN_ID := Hex(c.spanID, 16)];
    if c.trace.priority.Some? {
      if c.trace.priority.value >= 1 {
        out := out[SAMPLED := "1"];
      } else {
        out := out[SAMPLED := "0"];
      }
    }
    r := Some(out);
  }

  /** What the receiver knows: the identifiers, and of the priority only whether it was positive. */
  function Received(c: Context): Context {
    EmptyContext().(traceID := c.traceID, spanID := c.spanID,
      trace := NewTrace().(priority := if c.trace.priority.None? then None
                                       else Some(if c.trace.priority.value > 0 then 1 else 0)))
  }

  /** The fields already read: those whose header is in m. */
  function Partial(c: Context, m: map<string, string>): Context {
    EmptyContext().(
      traceID := if TRACE_ID in m then c.traceID else 0,
      spanID := if SPAN_ID in m then c.spanID else 0,
      trace := if SAMPLED in m then Received(c).trace else NewTrace())
  }

  lemma NamesDiffer()
    ensures TRACE_ID != SPAN_ID && TRACE_ID != SAMPLED && SPAN_ID != SAMPLED
  {
    assert |TRACE_ID| == 12 && |SPAN_ID| == 11 && |SAMPLED| == 12 && TRACE_ID[5] == 't' && SAMPLED[5] == 's';
  }

  lemma ReadExtends(c: Context, m: map<string, string>, h: Header)
    requires 0 < c.traceID < U64 && 0 < c.spanID < U64
    requires var name := ToLower(h.key); name !in m && name in Injected(c) && Injected(c)[name] == h.value
    ensures Read(Partial(c, m), h) == Some(Partial(c, m[ToLower(h.key) := h.value]))
  {
    hide ToLower, ParseUint, ParseInt, Hex;
    NamesDiffer();
    HexRoundTrip(c.traceID, 16);
    HexRoundTrip(c.spanID, 16);
    FlagRoundTrip();
  }

  lemma FlagRoundTrip()
    ensures ParseInt("1") == Some(1) && ParseInt("0") == Some(0)
  {
    assert Format(1, 10) == "1" && Format(0, 10) == "0";
    ParseIntItoa(1);
    ParseIntItoa(0);
  }

  lemma {:induction false} ReadAllExtends(c: Context, headers: seq<Header>)
    requires 0 < c.traceID < U64 && 0 < c.spanID < U64 && DistinctNames(headers)
    requires forall name :: name in Names(headers) ==> name in Injected(c) && Injected(c)[name] == Names(headers)[name]
    ensures ReadAll(headers) == Some(Partial(c, Names(headers)))
    decreases |headers|
  {
    hide ToLower, Injected, Read, Partial;
    if headers == [] {
      PartialNothing(c);
    } else {
      var front, h := headers[..|headers| - 1], headers[|headers| - 1];
      NamesSnoc(headers);
      forall name | name in Names(front) ensures name in Injected(c) && Injected(c)[name] == Names(front)[name] {
        assert name in Names(headers) && Names(headers)[name] == Names(front)[name];
      }
      ReadAllExtends(c, front);
      assert ToLower(h.key) in Names(headers);
      ReadExtends(c, Names(front), h);
    }
  }

  lemma PartialNothing(c: Context)
    ensures Partial(c, map[]) == EmptyContext()
  {}

  /** In whatever order the B3 headers arrive, the identifiers and the positivity of the priority survive. */
  lemma RoundTrip(c: Context, headers: seq<Header>)
    requires 0 < c.traceID < U64 && 0 < c.spanID < U64 && Carries(headers, Injected(c))
    ensures Extract(headers) == Extracted(Received(c))
  {
    hide Read, ReadAll, ToLower, Hex, Names, DistinctNames;
    NamesDiffer();
    ReadAllExtends(c, headers);
    assert Partial(c, Injected(c)) == Received(c);
  }
}
