/**
 The Datadog text map propagator (ddtrace/tracer/textmap.go): injectTextMap writes headers,
 extractTextMap reads them back one by one in whatever order the carrier yields them.
 */
module Propagation {
  import opened Common
  import opened Numerals
  import opened TagHeader
  import opened TraceModel
  import opened TraceRuns

  const ORIGIN_HEADER := "x-datadog-origin"
  const TAGS_HEADER := "x-datadog-tags"
  const EXTRACT_MAX_SIZE: nat := 512

  datatype Config = Config(
    baggagePrefix: string,
    traceHeader: string,
    parentHeader: string,
    priorityHeader: string,
    maxTagsHeaderLen: int)

  /** NewPropagator's defaults. */
  function DefaultConfig(maxTagsHeaderLen: int): Config {
    Config("ot-baggage-", "x-datadog-trace-id", "x-datadog-parent-id", "x-datadog-sampling-priority", maxTagsHeaderLen)
  }

  /** A span context; a missing trace and a new one are the same thing here. */
  datatype Context = Context(
    traceID: nat,
    spanID: nat,
    origin: string,
    baggage: map<string, string>,
    trace: TraceState<SpanId>)

  function EmptyContext(): Context { Context(0, 0, "", map[], NewTrace()) }

  datatype Extraction = Extracted(context: Context) | Corrupted | NotFound

  datatype Header = Header(key: string, value: string)

  function LowerChar(c: char): char { if 'A' <= c <= 'Z' then c - 'A' + 'a' else c }

  function ToLower(s: string): string {
    seq(|s|, i requires 0 <= i < |s| => LowerChar(s[i]))
  }

  predicate IsLower(s: string) { forall i :: 0 <= i < |s| ==> LowerChar(s[i]) == s[i] }

  // ---------- Extraction ----------

  /** unmarshalPropagatingTags */
  function Unmarshal(t: TraceState<SpanId>, v: string): TraceState<SpanId> {
    if |v| > EXTRACT_MAX_SIZE then t.(tags := t.tags[KEY_PROPAGATION_ERROR := "extract_max_size"])
    else match Parse(v)
      case None => t.(propagatingTags := map[], tags := t.tags[KEY_PROPAGATION_ERROR := "decoding_error"])
      case Some(tags) => t.(propagatingTags := tags)
  }

  /** What a header is about, by its lower-case name; the first match counts. */
  datatype Class = TraceIdOf | ParentIdOf | PriorityOf | OriginOf | TagsOf | BaggageOf(item: string) | Ignored

  function ClassOf(cfg: Config, name: string): Class {
    if name == cfg.traceHeader then TraceIdOf
    else if name == cfg.parentHeader then ParentIdOf
    else if name == cfg.priorityHeader then PriorityOf
    else if name == ORIGIN_HEADER then OriginOf
    else if name == TAGS_HEADER then TagsOf
    else if cfg.baggagePrefix <= name then BaggageOf(name[|cfg.baggagePrefix|..])
    else Ignored
  }

  /** The callback of ForeachKey; None stands for the error that ends the iteration. */
  function Read(cfg: Config, c: Context, h: Header): Option<Context> {
    match ClassOf(cfg, ToLower(h.key))
    case TraceIdOf =>
      (match ParseId(h.value)
       case None => None
       case Some(id) => Some(c.(traceID := id)))
    case ParentIdOf =>
      (match ParseId(h.value)
       case None => None
       case Some(id) => Some(c.(spanID := id)))
    case PriorityOf =>
      (match ParseInt(h.value)
       case None => None
       case Some(p) => Some(c.(trace := SetSamplingPriority(c.trace, p, SAMPLER_UNKNOWN))))
    case OriginOf => Some(c.(origin := h.value))
    case TagsOf => Some(c.(trace := Unmarshal(c.trace, h.value)))
    case BaggageOf(item) => Some(c.(baggage := c.baggage[item := h.value]))
    case Ignored => Some(c)
  }

  function ReadAll(cfg: Config, headers: seq<Header>): Option<Context> {
    if headers == [] then Some(EmptyContext())
    else match ReadAll(cfg, headers[..|headers| - 1])
      case None => None
      case Some(c) => Read(cfg, c, headers[|headers| - 1])
  }

  function Conclude(c: Context): Extraction {
    if c.traceID == 0 || (c.spanID == 0 && c.origin != "synthetics") then NotFound else Extracted(c)
  }

  function Extract(cfg: Config, headers: seq<Header>): Extraction {
    match ReadAll(cfg, headers)
    case None => Corrupted
    case Some(c) => Conclude(c)
  }

  /** extractTextMap: fills a context field by field and stops at the first error. */
  method ExtractTextMap(cfg: Config, headers: seq<Header>) returns (r: Extraction)
    ensures r == Extract(cfg, headers)
  {
    var c := EmptyContext();
    for i := 0 to |headers|
      invariant ReadAll(cfg, headers[..i]) == Some(c)
    {
      assert headers[..i + 1][..i] == headers[..i];
      var next := Read(cfg, c, headers[i]);
      if next.None? {
        StaysCorrupted(cfg, headers, i + 1);
        return Corrupted;
      }
      c := next.value;
    }
    assert headers[..|headers|] == headers;
    r := Conclude(c);
  }

  lemma {:induction false} StaysCorrupted(cfg: Config, headers: seq<Header>, i: nat)
    requires i <= |headers| && ReadAll(cfg, headers[..i]) == None
    ensures ReadAll(cfg, headers) == None
    decreases |headers|
  {
    if i == |headers| {
      assert headers[..i] == headers;
    } else {
      var front := headers[..|headers| - 1];
      assert front[..i] == headers[..i];
      StaysCorrupted(cfg, front, i);
    }
  }

  // ---------- What a list of headers says ----------

  /** The parts of a context that a later header simply overwrites. */
  datatype Slot = TraceSlot | ParentSlot | PrioritySlot | OriginSlot | ErrorSlot | BaggageSlot(item: string)

  datatype Value = Id(id: nat) | Level(p: int) | Text(text: string)

  predicate Parses(cfg: Config, name: string, value: string) {
    var kind := ClassOf(cfg, name);
    && (kind == TraceIdOf || kind == ParentIdOf ==> ParseId(value).Some?)
    && (kind == PriorityOf ==> ParseInt(value).Some?)
  }

  function TagsError(value: string): Option<Value> {
    if |value| > EXTRACT_MAX_SIZE then Some(Text("extract_max_size"))
    else if Parse(value).None? then Some(Text("decoding_error"))
    else None
  }

  /** What a header writes into a slot. */
  function Sets(cfg: Config, name: string, value: string, slot: Slot): Option<Value> {
    match ClassOf(cfg, name)
    case TraceIdOf => if slot == TraceSlot && ParseId(value).Some? then Some(Id(ParseId(value).value)) else None
    case ParentIdOf => if slot == ParentSlot && ParseId(value).Some? then Some(Id(ParseId(value).value)) else None
    case PriorityOf => if slot == PrioritySlot && ParseInt(value).Some? then Some(Level(ParseInt(value).value)) else None
    case OriginOf => if slot == OriginSlot then Some(Text(value)) else None
    case TagsOf => if slot == ErrorSlot then TagsError(value) else None
    case BaggageOf(item) => if slot == BaggageSlot(item) then Some(Text(value)) else None
    case Ignored => None
  }

  /** The propagating tags that a header puts in place of all others. */
  function SetsTags(cfg: Config, name: string, value: string): Option<map<string, string>> {
    if ClassOf(cfg, name) != TagsOf || |value| > EXTRACT_MAX_SIZE then None
    else if Parse(value).Some? then Parse(value)
    else Some(map[])
  }

  /** A nonpositive priority takes away the decision maker read before it. */
  predicate Erases(cfg: Config, name: string, value: string) {
    ClassOf(cfg, name) == PriorityOf && ParseInt(value).Some? && ParseInt(value).value <= 0
  }

  /** The last value written into a slot. */
  function Final(cfg: Config, hs: seq<Header>, slot: Slot): Option<Value> {
    if hs == [] then None
    else
      var h := hs[|hs| - 1];
      var x := Sets(cfg, ToLower(h.key), h.value, slot);
      if x.Some? then x else Final(cfg, hs[..|hs| - 1], slot)
  }

  /** The propagating tags left at the end. */
  function FinalTags(cfg: Config, hs: seq<Header>): map<string, string> {
    if hs == [] then map[]
    else
      var h, before := hs[|hs| - 1], FinalTags(cfg, hs[..|hs| - 1]);
      var x := SetsTags(cfg, ToLower(h.key), h.value);
      if x.Some? then x.value
      else if Erases(cfg, ToLower(h.key), h.value) then before - {KEY_DECISION_MAKER}
      else before
  }

  function IdIn(x: Option<Value>): nat { if x.Some? && x.value.Id? then x.value.id else 0 }

  function LevelIn(x: Option<Value>): Option<int> { if x.Some? && x.value.Level? then Some(x.value.p) else None }

  function TextIn(x: Option<Value>): string { if x.Some? && x.value.Text? then x.value.text else "" }

  function ErrorIn(x: Option<Value>): map<string, string> {
    if x.Some? && x.value.Text? then map[KEY_PROPAGATION_ERROR := x.value.text] else map[]
  }

  ghost predicate BaggageSays(cfg: Config, hs: seq<Header>, baggage: map<string, string>) {
    forall item :: Final(cfg, hs, BaggageSlot(item)) == if item in baggage then Some(Text(baggage[item])) else None
  }

  function TraceSaid(cfg: Config, hs: seq<Header>): TraceState<SpanId> {
    NewTrace().(priority := LevelIn(Final(cfg, hs, PrioritySlot)),
                propagatingTags := FinalTags(cfg, hs),
                tags := ErrorIn(Final(cfg, hs, ErrorSlot)))
  }

  /** `c` is what the headers say, taken in this order. */
  ghost predicate Says(cfg: Config, hs: seq<Header>, c: Context) {
    && c.traceID == IdIn(Final(cfg, hs, TraceSlot))
    && c.spanID == IdIn(Final(cfg, hs, ParentSlot))
    && c.origin == TextIn(Final(cfg, hs, OriginSlot))
    && c.trace == TraceSaid(cfg, hs)
    && BaggageSays(cfg, hs, c.baggage)
  }

  predicate Corrupt(cfg: Config, hs: seq<Header>) {
    exists i :: 0 <= i < |hs| && !Parses(cfg, ToLower(hs[i].key), hs[i].value)
  }

  lemma FinalSnoc(cfg: Config, hs: seq<Header>, h: Header, slot: Slot)
    ensures var x := Sets(cfg, ToLower(h.key), h.value, slot);
      Final(cfg, hs + [h], slot) == if x.Some? then x else Final(cfg, hs, slot)
  {
    assert (hs + [h])[..|hs|] == hs;
  }

  lemma FinalTagsSnoc(cfg: Config, hs: seq<Header>, h: Header)
    ensures var x := SetsTags(cfg, ToLower(h.key), h.value);
      FinalTags(cfg, hs + [h]) ==
        if x.Some? then x.value
        else if Erases(cfg, ToLower(h.key), h.value) then FinalTags(cfg, hs) - {KEY_DECISION_MAKER}
        else FinalTags(cfg, hs)
  {
    assert (hs + [h])[..|hs|] == hs;
  }

  lemma BaggageSnoc(cfg: Config, hs: seq<Header>, h: Header, baggage: map<string, string>)
    requires BaggageSays(cfg, hs, baggage)
    ensures var kind := ClassOf(cfg, ToLower(h.key));
      BaggageSays(cfg, hs + [h], if kind.BaggageOf? then baggage[kind.item := h.value] else baggage)
  {
    hide Final, ParseId, ParseInt, ClassOf, ToLower, TagsError;
    var kind := ClassOf(cfg, ToLower(h.key));
    var after := if kind.BaggageOf? then baggage[kind.item := h.value] else baggage;
    forall item
      ensures Final(cfg, hs + [h], BaggageSlot(item)) == if item in after then Some(Text(after[item])) else None
    {
      FinalSnoc(cfg, hs, h, BaggageSlot(item));
    }
  }

  lemma TraceSnoc(cfg: Config, hs: seq<Header>, c: Context, h: Header)
    requires c.trace == TraceSaid(cfg, hs) && Parses(cfg, ToLower(h.key), h.value)
    ensures Read(cfg, c, h).Some? && Read(cfg, c, h).value.trace == TraceSaid(cfg, hs + [h])
  {
    hide Final, FinalTags, ParseId, ParseInt, ClassOf, ToLower, Parse;
    FinalSnoc(cfg, hs, h, PrioritySlot);
    FinalSnoc(cfg, hs, h, ErrorSlot);
    FinalTagsSnoc(cfg, hs, h);
  }

  lemma ReadSays(cfg: Config, hs: seq<Header>, c: Context, h: Header)
    requires Says(cfg, hs, c)
    ensures Read(cfg, c, h).Some? <==> Parses(cfg, ToLower(h.key), h.value)
    ensures Read(cfg, c, h).Some? ==> Says(cfg, hs + [h], Read(cfg, c, h).value)
  {
    hide Final, ParseId, ParseInt, ClassOf, ToLower, TraceSaid, BaggageSays, TagsError, SetSamplingPriority, Unmarshal;
    if Parses(cfg, ToLower(h.key), h.value) {
      TraceSnoc(cfg, hs, c, h);
      BaggageSnoc(cfg, hs, h, c.baggage);
      FinalSnoc(cfg, hs, h, TraceSlot);
      FinalSnoc(cfg, hs, h, ParentSlot);
      FinalSnoc(cfg, hs, h, OriginSlot);
    }
  }

  /** Reading any headers, repeated names included: an error iff one of them does not parse, otherwise what they say. */
  lemma {:induction false} ReadAllMeans(cfg: Config, hs: seq<Header>)
    ensures ReadAll(cfg, hs).None? <==> Corrupt(cfg, hs)
    ensures ReadAll(cfg, hs).Some? ==> Says(cfg, hs, ReadAll(cfg, hs).value)
    decreases |hs|
  {
    hide Read, Says, Parses, ToLower;
    if hs == [] {
      NothingSaid(cfg);
    } else {
      var front, h := hs[..|hs| - 1], hs[|hs| - 1];
      assert hs == front + [h];
      ReadAllMeans(cfg, front);
      CorruptSnoc(cfg, front, h);
      if ReadAll(cfg, front).Some? {
        ReadSays(cfg, front, ReadAll(cfg, front).value, h);
      }
    }
  }

  lemma NothingSaid(cfg: Config)
    ensures Says(cfg, [], EmptyContext())
  {
  }

  lemma CorruptSnoc(cfg: Config, hs: seq<Header>, h: Header)
    ensures Corrupt(cfg, hs + [h]) <==> Corrupt(cfg, hs) || !Parses(cfg, ToLower(h.key), h.value)
  {
    hide Parses, ToLower;
    var all := hs + [h];
    if Corrupt(cfg, hs) {
      var i :| 0 <= i < |hs| && !Parses(cfg, ToLower(hs[i].key), hs[i].value);
      assert all[i] == hs[i];
    }
    if !Parses(cfg, ToLower(h.key), h.value) {
      assert all[|hs|] == h;
    }
  }

  /** What is said determines the context. */
  lemma SaysOnce(cfg: Config, hs: seq<Header>, hs': seq<Header>, c: Context, c': Context)
    requires Says(cfg, hs, c) && Says(cfg, hs', c')
    requires FinalTags(cfg, hs) == FinalTags(cfg, hs') && forall slot :: Final(cfg, hs, slot) == Final(cfg, hs', slot)
    ensures c == c'
  {
    hide Final, FinalTags;
    forall item ensures item in c.baggage <==> item in c'.baggage
      ensures item in c.baggage ==> c.baggage[item] == c'.baggage[item]
    {
      assert Final(cfg, hs, BaggageSlot(item)) == Final(cfg, hs', BaggageSlot(item));
    }
    assert c.baggage == c'.baggage;
  }

  // ---------- Headers with distinct names ----------

  /** The headers as a map from lower-case names. */
  function Names(headers: seq<Header>): map<string, string> {
    if headers == [] then map[]
    else Names(headers[..|headers| - 1])[ToLower(headers[|headers| - 1].key) := headers[|headers| - 1].value]
  }

  ghost predicate DistinctNames(headers: seq<Header>) {
    forall i, j :: 0 <= i < j < |headers| ==> ToLower(headers[i].key) != ToLower(headers[j].key)
  }

  /** Headers listing exactly the entries of m, in some order and in any letter case. */
  ghost predicate Carries(headers: seq<Header>, m: map<string, string>) {
    DistinctNames(headers) && Names(headers) == m
  }

  lemma {:induction false} NamesMember(headers: seq<Header>, name: string)
    ensures name in Names(headers) <==> exists i :: 0 <= i < |headers| && ToLower(headers[i].key) == name
  {
    hide ToLower;
    if headers != [] {
      var n := |headers| - 1;
      NamesMember(headers[..n], name);
      assert forall i :: 0 <= i < n ==> headers[..n][i] == headers[i];
      if name in Names(headers[..n]) {
        var i :| 0 <= i < n && ToLower(headers[..n][i].key) == name;
        assert ToLower(headers[i].key) == name;
      }
    }
  }

  lemma NamesSnoc(headers: seq<Header>)
    requires DistinctNames(headers) && headers != []
    ensures var front, h := headers[..|headers| - 1], headers[|headers| - 1];
      && DistinctNames(front) && ToLower(h.key) !in Names(front)
      && Names(headers) == Names(front)[ToLower(h.key) := h.value]
  {
    hide ToLower;
    NamesMember(headers[..|headers| - 1], ToLower(headers[|headers| - 1].key));
  }

  /** Every header carried is an entry of the map, and every entry is carried. */
  lemma {:induction false} CarriedEntries(hs: seq<Header>)
    requires DistinctNames(hs)
    ensures forall i :: 0 <= i < |hs| ==> ToLower(hs[i].key) in Names(hs) && Names(hs)[ToLower(hs[i].key)] == hs[i].value
    ensures forall name :: name in Names(hs) ==> exists i :: 0 <= i < |hs| && ToLower(hs[i].key) == name
    decreases |hs|
  {
    hide ToLower;
    if hs != [] {
      var front, h := hs[..|hs| - 1], hs[|hs| - 1];
      NamesSnoc(hs);
      CarriedEntries(front);
      forall i | 0 <= i < |hs| ensures ToLower(hs[i].key) in Names(hs) && Names(hs)[ToLower(hs[i].key)] == hs[i].value {
        if i < |front| {
          assert front[i] == hs[i];
        }
      }
      forall name | name in Names(hs) ensures exists i :: 0 <= i < |hs| && ToLower(hs[i].key) == name {
        NamesMember(hs, name);
      }
    }
  }

  lemma {:induction false} FinalFrom(cfg: Config, hs: seq<Header>, slot: Slot)
    ensures Final(cfg, hs, slot).Some? ==>
      exists i :: 0 <= i < |hs| && Sets(cfg, ToLower(hs[i].key), hs[i].value, slot) == Final(cfg, hs, slot)
    ensures Final(cfg, hs, slot).None? ==> forall i :: 0 <= i < |hs| ==> Sets(cfg, ToLower(hs[i].key), hs[i].value, slot).None?
    decreases |hs|
  {
    hide Sets, ToLower;
    if hs != [] {
      var front, h := hs[..|hs| - 1], hs[|hs| - 1];
      FinalFrom(cfg, front, slot);
      assert forall i :: 0 <= i < |front| ==> front[i] == hs[i];
      if Final(cfg, hs, slot).Some? && Sets(cfg, ToLower(h.key), h.value, slot).None? {
        var i :| 0 <= i < |front| && Sets(cfg, ToLower(front[i].key), front[i].value, slot) == Final(cfg, front, slot);
        assert Sets(cfg, ToLower(hs[i].key), hs[i].value, slot) == Final(cfg, hs, slot);
      }
    }
  }

  /** With distinct names a slot that only one name writes has that header's value. */
  lemma FinalByName(cfg: Config, hs: seq<Header>, m: map<string, string>, slot: Slot, name: string)
    requires Carries(hs, m)
    requires forall n, v :: Sets(cfg, n, v, slot).Some? ==> n == name
    ensures Final(cfg, hs, slot) == if name in m then Sets(cfg, name, m[name], slot) else None
  {
    hide Sets, ToLower, Final, Names;
    CarriedEntries(hs);
    FinalFrom(cfg, hs, slot);
    if name in m {
      var i :| 0 <= i < |hs| && ToLower(hs[i].key) == name;
      assert hs[i].value == m[name];
    }
  }

  /** If all tags headers agree, and no priority takes their decision maker away, those tags are left. */
  lemma {:induction false} TagsAgree(cfg: Config, hs: seq<Header>, tags: map<string, string>)
    requires forall i :: 0 <= i < |hs| ==>
      var x := SetsTags(cfg, ToLower(hs[i].key), hs[i].value); x.Some? ==> x.value == tags
    requires KEY_DECISION_MAKER in tags ==> forall i :: 0 <= i < |hs| ==> !Erases(cfg, ToLower(hs[i].key), hs[i].value)
    ensures FinalTags(cfg, hs) ==
      if exists i :: 0 <= i < |hs| && SetsTags(cfg, ToLower(hs[i].key), hs[i].value).Some? then tags else map[]
    decreases |hs|
  {
    hide SetsTags, Erases, ToLower;
    if hs != [] {
      var front, h := hs[..|hs| - 1], hs[|hs| - 1];
      assert forall i :: 0 <= i < |front| ==> front[i] == hs[i];
      TagsAgree(cfg, front, tags);
      assert KEY_DECISION_MAKER !in tags ==> tags - {KEY_DECISION_MAKER} == tags;
    }
  }

  /** Distinct names of the five headers with a meaning of their own, all out of the baggage's way. */
  predicate WellFormedConfig(cfg: Config) {
    && IsLower(cfg.baggagePrefix) && IsLower(cfg.traceHeader) && IsLower(cfg.parentHeader) && IsLower(cfg.priorityHeader)
    && cfg.traceHeader != cfg.parentHeader && cfg.traceHeader != cfg.priorityHeader
    && cfg.parentHeader != cfg.priorityHeader
    && !Reserved(cfg.traceHeader) && !Reserved(cfg.parentHeader) && !Reserved(cfg.priorityHeader)
    && !(cfg.baggagePrefix <= cfg.traceHeader) && !(cfg.baggagePrefix <= cfg.parentHeader)
    && !(cfg.baggagePrefix <= cfg.priorityHeader)
    && !(cfg.baggagePrefix <= ORIGIN_HEADER) && !(cfg.baggagePrefix <= TAGS_HEADER)
  }

  predicate Reserved(name: string) { name == ORIGIN_HEADER || name == TAGS_HEADER }

  lemma DefaultNamesAreLower()
    ensures IsLower("ot-baggage-") && IsLower("x-datadog-trace-id") && IsLower("x-datadog-parent-id")
  {}

  lemma DefaultPriorityIsLower()
    ensures IsLower("x-datadog-sampling-priority")
  {}

  lemma DefaultsAreWellFormed(maxTagsHeaderLen: int)
    ensures WellFormedConfig(DefaultConfig(maxTagsHeaderLen))
  {
    hide IsLower;
    DefaultNamesAreLower();
    DefaultPriorityIsLower();
    var cfg := DefaultConfig(maxTagsHeaderLen);
    assert cfg.baggagePrefix[0] == 'o' && cfg.traceHeader[0] == 'x' && cfg.parentHeader[0] == 'x';
    assert cfg.priorityHeader[0] == 'x' && ORIGIN_HEADER[0] == 'x' && TAGS_HEADER[0] == 'x';
    assert |cfg.traceHeader| == 18 && |cfg.parentHeader| == 19 && |cfg.priorityHeader| == 27;
    assert |ORIGIN_HEADER| == 16 && |TAGS_HEADER| == 14;
  }
}
