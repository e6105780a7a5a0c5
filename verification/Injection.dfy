/** What the Datadog propagator writes, and that any receiver reads it back. */
module Injection {
  import opened Common
  import opened Numerals
  import opened TagHeader
  import opened TraceModel
  import opened TraceRuns
  import opened TraceSampling
  import opened Propagation

  function Prefixed(prefix: string, baggage: map<string, string>): map<string, string> {
    map name | name in (set item | item in baggage :: prefix + item) :: baggage[name[|prefix|..]]
  }

  function Entry(present: bool, name: string, value: string): map<string, string> {
    if present then map[name := value] else map[]
  }

  function PriorityText(priority: Option<int>): string {
    if priority.Some? then Itoa(priority.value) else ""
  }

  /** Everything injectTextMap writes, given the tags header it marshalled. */
  function Injected(cfg: Config, c: Context, tagsHeader: string): map<string, string> {
    Entry(true, cfg.traceHeader, Format(c.traceID, 10))
    + Entry(true, cfg.parentHeader, Format(c.spanID, 10))
    + Entry(c.trace.priority.Some?, cfg.priorityHeader, PriorityText(c.trace.priority))
    + Entry(c.origin != "", ORIGIN_HEADER, c.origin)
    + Prefixed(cfg.baggagePrefix, c.baggage)
    + Entry(tagsHeader != "", TAGS_HEADER, tagsHeader)
  }

  /** The tags headers a context may be sent with: all valid tags in some order, or nothing. */
  ghost predicate MayMarshal(cfg: Config, tags: map<string, string>, header: string) {
    if cfg.maxTagsHeaderLen <= 0 || Overflows(ValidPart(tags), cfg.maxTagsHeaderLen) then header == ""
    else Renders(header, ValidPart(tags))
  }

  lemma PrefixedRemove(prefix: string, m: map<string, string>, k: string)
    requires k in m
    ensures prefix + k in Prefixed(prefix, m) && Prefixed(prefix, m)[prefix + k] == m[k]
    ensures Prefixed(prefix, m - {k}) == Prefixed(prefix, m) - {prefix + k}
  {
    assert (prefix + k)[|prefix|..] == k;
    forall name | name in Prefixed(prefix, m) && name != prefix + k ensures name in Prefixed(prefix, m - {k}) {
      var item :| item in m && name == prefix + item;
      assert item in m - {k};
    }
    forall name | name in Prefixed(prefix, m - {k}) ensures name in Prefixed(prefix, m) && name != prefix + k {
      var item :| item in m - {k} && name == prefix + item;
      assert name[|prefix|..] == item;
    }
  }

  datatype InjectResult = InvalidSpanContext | Wrote(carrier: map<string, string>, error: Option<string>)

  lemma Union(a: map<string, string>, b: map<string, string>, c: map<string, string>)
    ensures a + b + c == a + (b + c)
  {}

  lemma SetIsUnion(a: map<string, string>, k: string, v: string)
    ensures a[k := v] == a + Entry(true, k, v) && a == a + Entry(false, k, v)
  {}

  method WriteBaggage(carrier: map<string, string>, prefix: string, baggage: map<string, string>)
    returns (out: map<string, string>)
    ensures out == carrier + Prefixed(prefix, baggage)
  {
    hide Prefixed;
    out := carrier;
    var rest := baggage;
    while rest != map[]
      invariant out + Prefixed(prefix, rest) == carrier + Prefixed(prefix, baggage)
      decreases |rest|
    {
      var k :| k in rest;
      RemoveCount(rest, k);
      PrefixedRemove(prefix, rest, k);
      AddFirst(out, Prefixed(prefix, rest), prefix + k);
      out := out[prefix + k := rest[k]];
      rest := rest - {k};
    }
    PrefixedNothing(prefix);
    assert out + map[] == out;
  }

  /** injectTextMap on a map carrier; also returns the tags header it marshalled and the recorded propagation error. */
  method InjectTextMap(cfg: Config, c: Context, carrier: map<string, string>)
    returns (r: InjectResult, tagsHeader: string)
    ensures c.traceID == 0 || c.spanID == 0 <==> r == InvalidSpanContext
    ensures r.Wrote? ==> MayMarshal(cfg, c.trace.propagatingTags, tagsHeader)
    ensures r.Wrote? ==> r.carrier == carrier + Injected(cfg, c, tagsHeader)
    ensures r.Wrote? && cfg.maxTagsHeaderLen <= 0 ==> r.error == None
    ensures r.Wrote? && cfg.maxTagsHeaderLen > 0 ==>
              r.error == InjectError(c.trace.propagatingTags, cfg.maxTagsHeaderLen)
  {
    tagsHeader := "";
    if c.traceID == 0 || c.spanID == 0 {
      return InvalidSpanContext, tagsHeader;
    }
    hide Prefixed, Format, Itoa, PriorityText, ValidPart, Overflows, Renders, InjectError, Entry;
    var out := carrier[cfg.traceHeader := Format(c.traceID, 10)];
    SetIsUnion(carrier, cfg.traceHeader, Format(c.traceID, 10));
    SetIsUnion(out, cfg.parentHeader, Format(c.spanID, 10));
    out := out[cfg.parentHeader := Format(c.spanID, 10)];
    SetIsUnion(out, cfg.priorityHeader, PriorityText(c.trace.priority));
    if c.trace.priority.Some? {
      out := out[cfg.priorityHeader := PriorityText(c.trace.priority)];
    }
    SetIsUnion(out, ORIGIN_HEADER, c.origin);
    if c.origin != "" {
      out := out[ORIGIN_HEADER := c.origin];
    }
    out := WriteBaggage(out, cfg.baggagePrefix, c.baggage);
    var error: Option<string> := None;
    if cfg.maxTagsHeaderLen > 0 {
      tagsHeader, error := Marshal(c.trace.propagatingTags, cfg.maxTagsHeaderLen);
    }
    SetIsUnion(out, TAGS_HEADER, tagsHeader);
    if |tagsHeader| > 0 {
      out := out[TAGS_HEADER := tagsHeader];
    }
    InjectedIsUnion(cfg, c, tagsHeader, carrier);
    r := Wrote(out, error);
  }

  lemma InjectedIsUnion(cfg: Config, c: Context, tagsHeader: string, carrier: map<string, string>)
    ensures carrier + Injected(cfg, c, tagsHeader) ==
      carrier + Entry(true, cfg.traceHeader, Format(c.traceID, 10))
      + Entry(true, cfg.parentHeader, Format(c.spanID, 10))
      + Entry(c.trace.priority.Some?, cfg.priorityHeader, PriorityText(c.trace.priority))
      + Entry(c.origin != "", ORIGIN_HEADER, c.origin)
      + Prefixed(cfg.baggagePrefix, c.baggage)
      + Entry(tagsHeader != "", TAGS_HEADER, tagsHeader)
  {
    hide Prefixed, Format, PriorityText, Entry;
    var a := Entry(true, cfg.traceHeader, Format(c.traceID, 10));
    var b := a + Entry(true, cfg.parentHeader, Format(c.spanID, 10));
    var d := b + Entry(c.trace.priority.Some?, cfg.priorityHeader, PriorityText(c.trace.priority));
    var e := d + Entry(c.origin != "", ORIGIN_HEADER, c.origin);
    var f := e + Prefixed(cfg.baggagePrefix, c.baggage);
    Union(carrier, f, Entry(tagsHeader != "", TAGS_HEADER, tagsHeader));
    Union(carrier, e, Prefixed(cfg.baggagePrefix, c.baggage));
    Union(carrier, d, Entry(c.origin != "", ORIGIN_HEADER, c.origin));
    Union(carrier, b, Entry(c.trace.priority.Some?, cfg.priorityHeader, PriorityText(c.trace.priority)));
    Union(carrier, a, Entry(true, cfg.parentHeader, Format(c.spanID, 10)));
  }

  lemma PrefixedNothing(prefix: string)
    ensures Prefixed(prefix, map[]) == map[]
  {}

  // ---------- Reading it back ----------

  /** A context that can be sent: 64-bit identifiers, lower-case baggage keys, no maker for a nonpositive priority. */
  ghost predicate Sendable(c: Context) {
    && 0 < c.traceID < U64 && 0 < c.spanID < U64
    && (c.trace.priority.Some? ==> -(U64 / 2) <= c.trace.priority.value < U64 / 2)
    && (forall k :: k in c.baggage ==> IsLower(k))
    && Consistent(c.trace.priority, c.trace.propagatingTags)
  }

  /** What the receiver knows: everything but the tags that did not fit or were not valid. */
  function Received(c: Context, tagsHeader: string): Context {
    var fits := tagsHeader != "" && |tagsHeader| <= EXTRACT_MAX_SIZE;
    c.(trace := NewTrace().(
         priority := c.trace.priority,
         propagatingTags := if fits then ValidPart(c.trace.propagatingTags) else map[],
         tags := Entry(|tagsHeader| > EXTRACT_MAX_SIZE, KEY_PROPAGATION_ERROR, "extract_max_size")))
  }

  // What each name of the carrier says

  predicate FromEntry(m: map<string, string>, name: string, present: bool, value: string) {
    if present then name in m && m[name] == value else name !in m
  }

  lemma PrefixedHasPrefix(prefix: string, baggage: map<string, string>)
    ensures forall name :: name in Prefixed(prefix, baggage) ==>
      prefix <= name && name[|prefix|..] in baggage && Prefixed(prefix, baggage)[name] == baggage[name[|prefix|..]]
    ensures forall item :: item in baggage ==>
      prefix + item in Prefixed(prefix, baggage) && Prefixed(prefix, baggage)[prefix + item] == baggage[item]
  {
    forall item | item in baggage
      ensures prefix + item in Prefixed(prefix, baggage) && Prefixed(prefix, baggage)[prefix + item] == baggage[item]
    {
      assert (prefix + item)[|prefix|..] == item;
    }
  }

  /** The carrier as its fixed entries around the baggage. */
  function Fixed(cfg: Config, c: Context): map<string, string> {
    Entry(true, cfg.traceHeader, Format(c.traceID, 10))
    + Entry(true, cfg.parentHeader, Format(c.spanID, 10))
    + Entry(c.trace.priority.Some?, cfg.priorityHeader, PriorityText(c.trace.priority))
    + Entry(c.origin != "", ORIGIN_HEADER, c.origin)
  }

  lemma FixedEntries(cfg: Config, c: Context)
    requires WellFormedConfig(cfg)
    ensures var f := Fixed(cfg, c);
      && FromEntry(f, cfg.traceHeader, true, Format(c.traceID, 10))
      && FromEntry(f, cfg.parentHeader, true, Format(c.spanID, 10))
      && FromEntry(f, cfg.priorityHeader, c.trace.priority.Some?, PriorityText(c.trace.priority))
      && FromEntry(f, ORIGIN_HEADER, c.origin != "", c.origin)
      && f.Keys <= {cfg.traceHeader, cfg.parentHeader, cfg.priorityHeader, ORIGIN_HEADER}
  {
    hide Format, PriorityText, IsLower;
    FourEntries(cfg.traceHeader, Format(c.traceID, 10), cfg.parentHeader, Format(c.spanID, 10),
                c.trace.priority.Some?, cfg.priorityHeader, PriorityText(c.trace.priority), c.origin != "", ORIGIN_HEADER, c.origin);
  }

  lemma FourEntries(n1: string, v1: string, n2: string, v2: string, has3: bool, n3: string, v3: string, has4: bool, n4: string, v4: string)
    requires n1 != n2 && n1 != n3 && n1 != n4 && n2 != n3 && n2 != n4 && n3 != n4
    ensures var f := Entry(true, n1, v1) + Entry(true, n2, v2) + Entry(has3, n3, v3) + Entry(has4, n4, v4);
      && FromEntry(f, n1, true, v1) && FromEntry(f, n2, true, v2) && FromEntry(f, n3, has3, v3) && FromEntry(f, n4, has4, v4)
      && f.Keys <= {n1, n2, n3, n4}
  {
  }

  /** Each name of the carrier comes from its own part. */
  lemma InjectedEntries(cfg: Config, c: Context, h: string)
    requires WellFormedConfig(cfg)
    ensures var m := Injected(cfg, c, h);
      && FromEntry(m, cfg.traceHeader, true, Format(c.traceID, 10))
      && FromEntry(m, cfg.parentHeader, true, Format(c.spanID, 10))
      && FromEntry(m, cfg.priorityHeader, c.trace.priority.Some?, PriorityText(c.trace.priority))
      && FromEntry(m, ORIGIN_HEADER, c.origin != "", c.origin)
      && FromEntry(m, TAGS_HEADER, h != "", h)
      && (forall item :: FromEntry(m, cfg.baggagePrefix + item, item in c.baggage, if item in c.baggage then c.baggage[item] else ""))
  {
    hide Format, PriorityText, Prefixed, IsLower, Fixed;
    FixedEntries(cfg, c);
    PrefixedHasPrefix(cfg.baggagePrefix, c.baggage);
    OverlayEntries(Fixed(cfg, c), Prefixed(cfg.baggagePrefix, c.baggage), Entry(h != "", TAGS_HEADER, h), cfg.baggagePrefix,
                   {cfg.traceHeader, cfg.parentHeader, cfg.priorityHeader, ORIGIN_HEADER});
    InjectedIsOverlay(cfg, c, h);
    assert |ORIGIN_HEADER| == 16 && |TAGS_HEADER| == 14;
    var m := Injected(cfg, c, h);
    forall item ensures FromEntry(m, cfg.baggagePrefix + item, item in c.baggage, if item in c.baggage then c.baggage[item] else "") {
      assert cfg.baggagePrefix <= cfg.baggagePrefix + item && (cfg.baggagePrefix + item)[|cfg.baggagePrefix|..] == item;
    }
  }

  lemma InjectedIsOverlay(cfg: Config, c: Context, h: string)
    ensures Injected(cfg, c, h) == Fixed(cfg, c) + Prefixed(cfg.baggagePrefix, c.baggage) + Entry(h != "", TAGS_HEADER, h)
  {
    hide Format, PriorityText, Prefixed, Entry;
  }

  lemma OverlayEntries(f: map<string, string>, b: map<string, string>, t: map<string, string>, prefix: string, names: set<string>)
    requires f.Keys <= names && t.Keys <= {TAGS_HEADER} && TAGS_HEADER !in names && !(prefix <= TAGS_HEADER)
    requires (forall n :: n in names ==> !(prefix <= n)) && (forall n :: n in b ==> prefix <= n)
    ensures forall n :: n in names ==> (n in f + b + t <==> n in f) && (n in f ==> (f + b + t)[n] == f[n])
    ensures (TAGS_HEADER in f + b + t <==> TAGS_HEADER in t) && (TAGS_HEADER in t ==> (f + b + t)[TAGS_HEADER] == t[TAGS_HEADER])
    ensures forall n :: prefix <= n ==> (n in f + b + t <==> n in b) && (n in b ==> (f + b + t)[n] == b[n])
  {
  }

  // The slots

  lemma SlotNames(cfg: Config, item: string)
    ensures forall n, v :: Sets(cfg, n, v, TraceSlot).Some? ==> n == cfg.traceHeader
    ensures forall n, v :: Sets(cfg, n, v, ParentSlot).Some? ==> n == cfg.parentHeader
    ensures forall n, v :: Sets(cfg, n, v, PrioritySlot).Some? ==> n == cfg.priorityHeader
    ensures forall n, v :: Sets(cfg, n, v, OriginSlot).Some? ==> n == ORIGIN_HEADER
    ensures forall n, v :: Sets(cfg, n, v, ErrorSlot).Some? ==> n == TAGS_HEADER
    ensures forall n, v :: Sets(cfg, n, v, BaggageSlot(item)).Some? ==> n == cfg.baggagePrefix + item
  {
    hide ParseId, ParseInt, TagsError;
  }

  lemma Classes(cfg: Config, item: string)
    requires WellFormedConfig(cfg)
    ensures ClassOf(cfg, cfg.traceHeader) == TraceIdOf && ClassOf(cfg, cfg.parentHeader) == ParentIdOf
    ensures ClassOf(cfg, cfg.priorityHeader) == PriorityOf && ClassOf(cfg, ORIGIN_HEADER) == OriginOf
    ensures ClassOf(cfg, TAGS_HEADER) == TagsOf && ClassOf(cfg, cfg.baggagePrefix + item) == BaggageOf(item)
  {
    hide IsLower;
    assert |ORIGIN_HEADER| == 16 && |TAGS_HEADER| == 14;
    assert cfg.baggagePrefix <= cfg.baggagePrefix + item;
  }

  lemma SlotsReceived(cfg: Config, c: Context, h: string, hs: seq<Header>)
    requires WellFormedConfig(cfg) && Sendable(c) && Carries(hs, Injected(cfg, c, h))
    ensures Final(cfg, hs, TraceSlot) == Some(Id(c.traceID)) && Final(cfg, hs, ParentSlot) == Some(Id(c.spanID))
    ensures Final(cfg, hs, PrioritySlot) == if c.trace.priority.Some? then Some(Level(c.trace.priority.value)) else None
    ensures Final(cfg, hs, OriginSlot) == if c.origin != "" then Some(Text(c.origin)) else None
    ensures Final(cfg, hs, ErrorSlot) == if h != "" then TagsError(h) else None
  {
    hide Format, Itoa, ParseId, ParseInt, IsLower, Carries, Final, Injected, WellFormedConfig, ClassOf, TagsError;
    InjectedEntries(cfg, c, h);
    SlotNames(cfg, "");
    Classes(cfg, "");
    IdRoundTrip(c.traceID);
    IdRoundTrip(c.spanID);
    if c.trace.priority.Some? {
      ParseIntItoa(c.trace.priority.value);
    }
    var m := Injected(cfg, c, h);
    FinalByName(cfg, hs, m, TraceSlot, cfg.traceHeader);
    FinalByName(cfg, hs, m, ParentSlot, cfg.parentHeader);
    FinalByName(cfg, hs, m, PrioritySlot, cfg.priorityHeader);
    FinalByName(cfg, hs, m, OriginSlot, ORIGIN_HEADER);
    FinalByName(cfg, hs, m, ErrorSlot, TAGS_HEADER);
  }

  lemma BaggageReceived(cfg: Config, c: Context, h: string, hs: seq<Header>)
    requires WellFormedConfig(cfg) && Carries(hs, Injected(cfg, c, h))
    ensures BaggageSays(cfg, hs, c.baggage)
  {
    hide IsLower, Carries, Final, Injected, WellFormedConfig, ClassOf;
    InjectedEntries(cfg, c, h);
    forall item ensures Final(cfg, hs, BaggageSlot(item)) == if item in c.baggage then Some(Text(c.baggage[item])) else None {
      SlotNames(cfg, item);
      Classes(cfg, item);
      FinalByName(cfg, hs, Injected(cfg, c, h), BaggageSlot(item), cfg.baggagePrefix + item);
    }
  }

  /** All headers parse. */
  lemma InjectedParses(cfg: Config, c: Context, h: string, hs: seq<Header>)
    requires WellFormedConfig(cfg) && Sendable(c) && Carries(hs, Injected(cfg, c, h))
    ensures !Corrupt(cfg, hs)
  {
    hide Format, Itoa, ParseId, ParseInt, IsLower, Injected, Names, ToLower;
    InjectedEntries(cfg, c, h);
    CarriedEntries(hs);
    IdRoundTrip(c.traceID);
    IdRoundTrip(c.spanID);
    if c.trace.priority.Some? {
      ParseIntItoa(c.trace.priority.value);
    }
    hide WellFormedConfig;
  }

  lemma ValidPartIsValid(m: map<string, string>)
    ensures forall k :: k in ValidPart(m) ==> k in m && m[k] == ValidPart(m)[k] && ValidTag(k, ValidPart(m)[k])
  {
    hide ValidTag;
  }

  lemma HeaderParses(cfg: Config, tags: map<string, string>, h: string)
    requires MayMarshal(cfg, tags, h) && h != ""
    ensures Parse(h) == Some(ValidPart(tags))
  {
    hide ValidTag, Overflows;
    ValidPartIsValid(tags);
    EmittedParsesBack(h, ValidPart(tags));
  }

  lemma TagsSetter(cfg: Config, c: Context, h: string, hs: seq<Header>, i: int)
    requires WellFormedConfig(cfg) && Carries(hs, Injected(cfg, c, h)) && 0 <= i < |hs|
    ensures var x := SetsTags(cfg, ToLower(hs[i].key), hs[i].value);
      x.Some? ==> h != "" && |h| <= EXTRACT_MAX_SIZE && x == SetsTags(cfg, TAGS_HEADER, h)
  {
    hide Format, IsLower, Injected, Names, ToLower, Parse, WellFormedConfig;
    InjectedEntries(cfg, c, h);
    CarriedEntries(hs);
  }

  lemma TagsSet(cfg: Config, c: Context, h: string, hs: seq<Header>)
    requires WellFormedConfig(cfg) && Carries(hs, Injected(cfg, c, h)) && h != "" && |h| <= EXTRACT_MAX_SIZE
    ensures exists i :: 0 <= i < |hs| && SetsTags(cfg, ToLower(hs[i].key), hs[i].value).Some?
  {
    hide Format, IsLower, Injected, Names, ToLower, Parse, ClassOf;
    InjectedEntries(cfg, c, h);
    Classes(cfg, "");
    CarriedEntries(hs);
    var i :| 0 <= i < |hs| && ToLower(hs[i].key) == TAGS_HEADER;
    assert SetsTags(cfg, ToLower(hs[i].key), hs[i].value).Some?;
  }

  /** The valid tags are left: a decision maker among them means that the priority does not erase it. */
  lemma TagsReceived(cfg: Config, c: Context, h: string, hs: seq<Header>)
    requires WellFormedConfig(cfg) && Sendable(c) && Carries(hs, Injected(cfg, c, h))
    requires MayMarshal(cfg, c.trace.propagatingTags, h)
    ensures FinalTags(cfg, hs) == Received(c, h).trace.propagatingTags
    ensures h != "" && |h| <= EXTRACT_MAX_SIZE ==> Parse(h).Some?
  {
    hide IsLower, Injected, ToLower, Parse, ValidPart, MayMarshal, FinalTags, WellFormedConfig, Carries, Erases;
    var valid := ValidPart(c.trace.propagatingTags);
    if h != "" {
      HeaderParses(cfg, c.trace.propagatingTags, h);
    }
    forall i | 0 <= i < |hs|
      ensures var x := SetsTags(cfg, ToLower(hs[i].key), hs[i].value); x.Some? ==> x.value == valid && h != "" && |h| <= EXTRACT_MAX_SIZE
    {
      TagsSetter(cfg, c, h, hs, i);
    }
    hide SetsTags;
    NoEraser(cfg, c, h, hs, valid);
    TagsAgree(cfg, hs, valid);
    if h != "" && |h| <= EXTRACT_MAX_SIZE {
      TagsSet(cfg, c, h, hs);
    }
  }

  lemma NoEraser(cfg: Config, c: Context, h: string, hs: seq<Header>, valid: map<string, string>)
    requires WellFormedConfig(cfg) && Sendable(c) && Carries(hs, Injected(cfg, c, h))
    requires valid == ValidPart(c.trace.propagatingTags)
    ensures KEY_DECISION_MAKER in valid ==> forall i :: 0 <= i < |hs| ==> !Erases(cfg, ToLower(hs[i].key), hs[i].value)
  {
    hide Format, Itoa, ParseInt, IsLower, Injected, Names, ToLower, ValidTag;
    InjectedEntries(cfg, c, h);
    CarriedEntries(hs);
    if c.trace.priority.Some? {
      ParseIntItoa(c.trace.priority.value);
    }
  }

  /**
   The round trip: whatever the order and letter case in which the injected headers arrive, the receiver
   extracts the same identifiers, priority, origin and baggage, and the valid tags if their header fits.
   */
  lemma RoundTrip(cfg: Config, c: Context, h: string, headers: seq<Header>)
    requires WellFormedConfig(cfg) && Sendable(c) && MayMarshal(cfg, c.trace.propagatingTags, h)
    requires Carries(headers, Injected(cfg, c, h))
    ensures Extract(cfg, headers) == Extracted(Received(c, h))
  {
    hide Injected, WellFormedConfig, MayMarshal, ReadAll, Corrupt, IsLower, Carries, Final, FinalTags, ValidPart, Parse, BaggageSays;
    ReadAllMeans(cfg, headers);
    InjectedParses(cfg, c, h, headers);
    SlotsReceived(cfg, c, h, headers);
    BaggageReceived(cfg, c, h, headers);
    TagsReceived(cfg, c, h, headers);
    assert Says(cfg, headers, Received(c, h));
    SaysOnce(cfg, headers, headers, ReadAll(cfg, headers).value, Received(c, h));
  }

  /**
   Joined with the trace's life: a context whose trace is reached by any run, from a new trace or
   from an extracted one, comes through every order of the headers, provided that the first trace
   was consistent or some priority has been set since.
   */
  lemma ReachableContextRoundTrips(cfg: Config, t: TraceState<SpanId>, actions: seq<Action>, c: Context, h: string, headers: seq<Header>)
    requires WellFormedConfig(cfg) && Runs(Start(t), actions) && c.trace == After(Start(t), actions).trace
    requires Consistent(t.priority, t.propagatingTags) || After(Start(t), actions).settings != []
    requires 0 < c.traceID < U64 && 0 < c.spanID < U64 && forall k :: k in c.baggage ==> IsLower(k)
    requires c.trace.priority.Some? ==> -(U64 / 2) <= c.trace.priority.value < U64 / 2
    requires MayMarshal(cfg, c.trace.propagatingTags, h) && Carries(headers, Injected(cfg, c, h))
    ensures Extract(cfg, headers) == Extracted(Received(c, h))
  {
    hide WellFormedConfig, MayMarshal, Carries, Extract, Received, IsLower, Runs, After;
    ReachableIsConsistent(t, actions);
    RoundTrip(cfg, c, h, headers);
  }
}
