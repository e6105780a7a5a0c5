/** SQL comment injection (ddtrace/tracer/sqlcomment.go): the comment printer, traceparent, and the carrier. */
module SqlComment {
  import opened Common
  import opened Numerals
  import opened TagHeader
  import opened SqlText

  const MODE_UNDEFINED := ""
  const MODE_DISABLED := "disabled"
  const MODE_SERVICE := "service"
  const MODE_FULL := "full"

  const KEY_DB_SERVICE := "dddbs"
  const KEY_ENV := "dde"
  const KEY_PARENT_SERVICE := "ddps"
  const KEY_PARENT_VERSION := "ddpv"
  const KEY_TRACE_PARENT := "traceparent"

  const ORDERED_KEYS: seq<string> := [KEY_DB_SERVICE, KEY_ENV, KEY_PARENT_SERVICE, KEY_PARENT_VERSION, KEY_TRACE_PARENT]

  // ---------------------------------------------------------------------
  // The comment

  /** The tags among `keys`, in the order of `keys`. */
  function Used(tags: map<string, string>, keys: seq<string>): seq<Item> {
    if keys == [] then []
    else
      var rest, k := Used(tags, keys[..|keys| - 1]), keys[|keys| - 1];
      if k in tags then rest + [Item(k, tags[k])] else rest
  }

  function Written(x: Item): Item {
    Item(Replace(KeyRule, x.key), "'" + Replace(ValueRule, x.value) + "'")
  }

  function WrittenAll(items: seq<Item>): (r: seq<Item>)
    ensures |r| == |items|
  {
    seq(|items|, i requires 0 <= i < |items| => Written(items[i]))
  }

  function Comment(items: seq<Item>): string { "/*" + Render(WrittenAll(items)) + "*/" }

  /** What follows the comment. */
  function Trailer(query: string): string { if query == "" then "" else " " + query }

  function Commented(query: string, tags: map<string, string>): string {
    if tags == map[] then ""
    else if Used(tags, ORDERED_KEYS) == [] then query
    else Comment(Used(tags, ORDERED_KEYS)) + Trailer(query)
  }

  /** commentQuery's builder before the closing mark. */
  function Opening(items: seq<Item>): string {
    if items == [] then "" else "/*" + Render(WrittenAll(items))
  }

  /** The loop of commentQuery over its ordered keys. */
  method WriteTags(tags: map<string, string>, keys: seq<string>) returns (b: string)
    ensures b == Opening(Used(tags, keys))
  {
    hide Opening, Used;
    var first, i := true, 0;
    b := "";
    NothingUsed(tags, keys);
    while i < |keys|
      invariant 0 <= i <= |keys|
      invariant first <==> Used(tags, keys[..i]) == []
      invariant b == Opening(Used(tags, keys[..i]))
    {
      var k := keys[i];
      UsedNext(tags, keys, i);
      if k in tags {
        var key, val := Replace(KeyRule, k), Replace(ValueRule, tags[k]);
        OpeningSnoc(Used(tags, keys[..i]), Item(k, tags[k]));
        if first {
          b := b + "/*";
        } else {
          b := b + ",";
        }
        b := b + (key + "=" + "'" + val + "'");
        first := false;
      }
      i := i + 1;
    }
    assert keys[..i] == keys;
  }

  /** commentQuery */
  method CommentQuery(query: string, tags: map<string, string>) returns (r: string)
    ensures r == Commented(query, tags)
  {
    hide Render, WrittenAll, Used;
    if |tags| == 0 {
      return "";
    }
    var b := WriteTags(tags, ORDERED_KEYS);
    if b == "" {
      return query;
    }
    b := b + "*/";
    if query == "" {
      return b;
    }
    r := b + (" " + query);
  }

  lemma NothingUsed(tags: map<string, string>, keys: seq<string>)
    ensures Used(tags, keys[..0]) == [] && Opening([]) == ""
  {
  }

  lemma UsedNext(tags: map<string, string>, keys: seq<string>, i: nat)
    requires i < |keys|
    ensures keys[i] in tags ==> Used(tags, keys[..i + 1]) == Used(tags, keys[..i]) + [Item(keys[i], tags[keys[i]])]
    ensures keys[i] !in tags ==> Used(tags, keys[..i + 1]) == Used(tags, keys[..i])
  {
    assert keys[..i + 1][..i] == keys[..i];
  }

  lemma OpeningSnoc(items: seq<Item>, x: Item)
    ensures Opening(items + [x])
         == (Opening(items) + if items == [] then "/*" else ",")
            + (Replace(KeyRule, x.key) + "=" + "'" + Replace(ValueRule, x.value) + "'")
  {
    hide Render, Replace;
    assert WrittenAll(items + [x]) == WrittenAll(items) + [Written(x)];
    RenderSnoc(WrittenAll(items), Written(x));
  }

  // ---------------------------------------------------------------------
  // Reading a comment

  function ReadItem(x: Item): Option<Item> {
    var n := |x.value|;
    if n >= 2 && x.value[0] == '\'' && x.value[n - 1] == '\''
    then Some(Item(PercentDecode(x.key), PercentDecode(x.value[1..n - 1])))
    else None
  }

  function ReadItems(items: seq<Item>): Option<seq<Item>> {
    if items == [] then Some([])
    else match (ReadItems(items[..|items| - 1]), ReadItem(items[|items| - 1]))
      case (Some(rest), Some(x)) => Some(rest + [x])
      case _ => None
  }

  datatype Reading = Reading(tags: seq<Item>, rest: string)

  /** The tags of a leading comment and the text after it. */
  function ReadComment(s: string): Option<Reading> {
    var e := CommentEnd(s, 0);
    if e.Some? && e.value >= 2 && s[..2] == "/*" then
      match ItemsOf(s[2..e.value])
      case None => None
      case Some(items) =>
        match ReadItems(items)
        case None => None
        case Some(tags) => Some(Reading(tags, s[e.value + 2..]))
    else None
  }

  lemma WrittenItem(x: Item)
    requires x.key != ""
    ensures WellFormed(Written(x)) && ReadItem(Written(x)) == Some(x)
    ensures '*' !in RenderItem(Written(x)) && RenderItem(Written(x)) != "" && RenderItem(Written(x))[0] != '/'
  {
    hide Replace, PercentDecode, KeyRule, ValueRule;
    ReplaceRoundTrip(x.key);
    ReplaceRoundTrip(x.value);
    ReplaceValue(x.value);
    var w := Written(x);
    assert w.value[1..|w.value| - 1] == Replace(KeyRule, x.value);
    assert w.key[0] in w.key;
    assert RenderItem(w)[0] == w.key[0];
  }

  lemma {:induction false} WrittenItems(items: seq<Item>)
    requires forall x :: x in items ==> x.key != ""
    ensures forall w :: w in WrittenAll(items) ==> WellFormed(w)
    ensures ReadItems(WrittenAll(items)) == Some(items)
    ensures '*' !in Render(WrittenAll(items))
    ensures items != [] ==> Render(WrittenAll(items)) != "" && Render(WrittenAll(items))[0] != '/'
    decreases |items|
  {
    hide Render, Written, ReadItem, WellFormed, RenderItem;
    if items == [] {
      RenderNothing();
    } else {
      var front, x := items[..|items| - 1], items[|items| - 1];
      assert items == front + [x];
      WrittenItems(front);
      WrittenItem(x);
      var ws := WrittenAll(front);
      assert WrittenAll(items) == ws + [Written(x)];
      assert (ws + [Written(x)])[..|ws + [Written(x)]| - 1] == ws;
      RenderSnoc(ws, Written(x));
    }
  }

  lemma {:induction false} UsedKeys(tags: map<string, string>, keys: seq<string>)
    ensures forall x :: x in Used(tags, keys) ==> x.key in keys && x.key in tags && tags[x.key] == x.value
    ensures forall k :: k in keys && k in tags ==> Item(k, tags[k]) in Used(tags, keys)
    decreases |keys|
  {
    if keys != [] {
      UsedKeys(tags, keys[..|keys| - 1]);
      assert keys == keys[..|keys| - 1] + [keys[|keys| - 1]];
    }
  }

  lemma KeysNonempty()
    ensures "" !in ORDERED_KEYS && KEY_DB_SERVICE in ORDERED_KEYS
  {
    assert ORDERED_KEYS[0] == KEY_DB_SERVICE;
  }

  /**
   * The first closing mark ends the comment, the query follows it unchanged, and splitting and
   * percent-decoding the body gives back the tags.
   */
  lemma CommentReadsBack(query: string, tags: map<string, string>)
    requires Used(tags, ORDERED_KEYS) != []
    ensures ReadComment(Commented(query, tags))
         == Some(Reading(Used(tags, ORDERED_KEYS), if query == "" then "" else " " + query))
  {
    hide Used, Render, ItemsOf, ReadItems, CommentEnd;
    var items := Used(tags, ORDERED_KEYS);
    UsedKeys(tags, ORDERED_KEYS);
    KeysNonempty();
    WrittenItems(items);
    var body := Render(WrittenAll(items));
    ItemsRoundTrip(WrittenAll(items));
    hide WrittenAll, ORDERED_KEYS;
    BodyEndsItself(body, Trailer(query));
    assert tags != map[] by {
      assert items[0] in items;
    }
    CommentPlaces(body, Trailer(query));
  }

  lemma CommentPlaces(body: string, rest: string)
    ensures var s := "/*" + body + "*/" + rest;
      s[..2] == "/*" && s[2..2 + |body|] == body && s[2 + |body| + 2..] == rest
  {
  }

  // The order of the tags

  ghost predicate LexLess(a: string, b: string) {
    exists i: nat :: i <= |a| && i < |b| && a[..i] == b[..i] && (i == |a| || a[i] < b[i])
  }

  lemma LexAt(a: string, b: string, i: nat)
    requires i < |a| && i < |b| && a[..i] == b[..i] && a[i] < b[i]
    ensures LexLess(a, b)
  {
  }

  lemma KeyOrder(i: nat, j: nat)
    requires i < j < 5
    ensures LexLess(ORDERED_KEYS[i], ORDERED_KEYS[j])
  {
    var a, b := ORDERED_KEYS[i], ORDERED_KEYS[j];
    if j == 4 {
      assert a[0] == 'd' && b[0] == 't';
      LexAt(a, b, 0);
    } else if i == 2 {
      assert a[..3] == "ddp" && b[..3] == "ddp";
      LexAt(a, b, 3);
    } else {
      assert a[..2] == "dd" && b[..2] == "dd";
      LexAt(a, b, 2);
    }
  }

  ghost predicate SortedKeys(keys: seq<string>) {
    forall i, j :: 0 <= i < j < |keys| ==> LexLess(keys[i], keys[j])
  }

  ghost predicate SortedItems(items: seq<Item>) {
    forall i, j :: 0 <= i < j < |items| ==> LexLess(items[i].key, items[j].key)
  }

  lemma {:induction false} UsedSorted(tags: map<string, string>, keys: seq<string>)
    requires SortedKeys(keys)
    ensures SortedItems(Used(tags, keys))
    decreases |keys|
  {
    hide LexLess;
    if keys != [] {
      var front, k := keys[..|keys| - 1], keys[|keys| - 1];
      UsedSorted(tags, front);
      UsedKeys(tags, front);
      var items := Used(tags, front);
      forall i | 0 <= i < |items| ensures LexLess(items[i].key, k) {
        assert items[i] in items;
        var j :| 0 <= j < |front| && front[j] == items[i].key;
        assert keys[j] == front[j];
      }
    }
  }

  /** The tags read back are sorted by key and, when all keys are known ones, are exactly the tags given. */
  lemma TagsAreSorted(tags: map<string, string>)
    ensures SortedItems(Used(tags, ORDERED_KEYS))
    ensures (forall k :: k in tags ==> k in ORDERED_KEYS) ==> MapOf(Used(tags, ORDERED_KEYS)) == tags
  {
    hide LexLess, Used, MapOf;
    forall i, j | 0 <= i < j < |ORDERED_KEYS| ensures LexLess(ORDERED_KEYS[i], ORDERED_KEYS[j]) {
      KeyOrder(i, j);
    }
    UsedSorted(tags, ORDERED_KEYS);
    UsedKeys(tags, ORDERED_KEYS);
    var items := Used(tags, ORDERED_KEYS);
    MapOfItems(tags, items);
  }

  lemma {:induction false} MapOfItems(tags: map<string, string>, items: seq<Item>)
    requires forall x :: x in items ==> x.key in tags && tags[x.key] == x.value
    ensures forall k :: k in MapOf(items) ==> k in tags && MapOf(items)[k] == tags[k]
    ensures forall x :: x in items ==> x.key in MapOf(items)
    decreases |items|
  {
    if items != [] {
      var front, x := items[..|items| - 1], items[|items| - 1];
      assert items == front + [x];
      MapOfItems(tags, front);
    }
  }

  // ---------------------------------------------------------------------
  // traceparent

  /** strconv.FormatInt(i, 16) */
  function FormatInt16(i: int): string {
    if i < 0 then "-" + Format(-i, 16) else Format(i, 16)
  }

  function TraceParent(traceId: nat, spanId: nat, sampled: int): string {
    "00" + "-" + Hex(traceId, 32) + "-" + Hex(spanId, 16) + "-" + "0" + FormatInt16(sampled)
  }

  method WritePadded(b: string, digits: string, width: nat) returns (r: string)
    ensures r == b + (if |digits| < width then Zeros(width - |digits|) + digits else digits)
  {
    r := b;
    var i := 0;
    while i < width - |digits|
      invariant 0 <= i && (|digits| <= width ==> i <= width - |digits|) && (|digits| >= width ==> i == 0)
      invariant r == b + Zeros(i)
    {
      r := r + ['0'];
      i := i + 1;
    }
    r := r + digits;
  }

  /** encodeTraceParent */
  method EncodeTraceParent(traceId: nat, spanId: nat, sampled: int) returns (r: string)
    requires traceId < U64 && spanId < U64
    ensures r == TraceParent(traceId, spanId, sampled)
  {
    hide Format;
    r := "00" + "-";
    r := WritePadded(r, Format(traceId, 16), 32);
    r := r + "-";
    r := WritePadded(r, Format(spanId, 16), 16);
    r := r + "-" + "0";
    r := r + FormatInt16(sampled);
    assert r == TraceParent(traceId, spanId, sampled);
  }

  /** The fields of a traceparent at their fixed places: trace ID, span ID, flags. */
  function ReadTraceParent(s: string): Option<(nat, nat, nat)> {
    if |s| == 55 && s[..3] == "00-" && s[35] == '-' && s[52] == '-' then
      match (ParseUint(s[3..35], 16), ParseUint(s[36..52], 16), ParseUint(s[53..55], 16))
      case (Some(t), Some(p), Some(f)) => Some((t, p, f))
      case _ => None
    else None
  }

  lemma FlagDigits(sampled: int)
    requires 0 <= sampled <= 1
    ensures |FormatInt16(sampled)| == 1
    ensures ParseUint("0" + FormatInt16(sampled), 16) == Some(sampled)
  {
    FormatValue(sampled, 16);
    assert "0" == Zeros(1);
    ZerosValue(1, FormatInt16(sampled), 16);
  }

  /** Always 55 characters, and the IDs and the flag can be read back, so it is injective in them. */
  lemma TraceParentReadsBack(traceId: nat, spanId: nat, sampled: int)
    requires traceId < U64 && spanId < U64 && 0 <= sampled <= 1
    ensures |TraceParent(traceId, spanId, sampled)| == 55
    ensures ReadTraceParent(TraceParent(traceId, spanId, sampled)) == Some((traceId, spanId, sampled))
  {
    hide Hex, ParseUint, FormatInt16;
    HexRoundTrip(traceId, 32);
    HexRoundTrip(spanId, 16);
    FlagDigits(sampled);
    FixedPlaces(Hex(traceId, 32), Hex(spanId, 16), FormatInt16(sampled));
  }

  lemma FixedPlaces(a: string, b: string, c: string)
    requires |a| == 32 && |b| == 16 && |c| == 1
    ensures var s := "00" + "-" + a + "-" + b + "-" + "0" + c;
      && |s| == 55 && s[..3] == "00-" && s[3..35] == a && s[35] == '-' && s[36..52] == b && s[52] == '-' && s[53..55] == "0" + c
  {
  }

  lemma TraceParentInjective(t: nat, p: nat, f: int, t': nat, p': nat, f': int)
    requires t < U64 && p < U64 && 0 <= f <= 1 && t' < U64 && p' < U64 && 0 <= f' <= 1
    ensures TraceParent(t, p, f) == TraceParent(t', p', f') <==> t == t' && p == p' && f == f'
  {
    hide TraceParent, ReadTraceParent;
    TraceParentReadsBack(t, p, f);
    TraceParentReadsBack(t', p', f');
  }

  // ---------------------------------------------------------------------
  // The carrier

  /** What Inject reads of a tracer's own span context; other contexts give it nothing. */
  datatype SpanInfo = SpanInfo(traceId: nat, priority: Option<int>, span: Option<SpanMeta>)

  /** The tags of the context's span; an extracted context has no span. */
  datatype SpanMeta = SpanMeta(env: Option<string>, version: Option<string>)

  function EnvOf(ctx: Option<SpanInfo>): string {
    if ctx.Some? && ctx.value.span.Some? then OrEmpty(ctx.value.span.value.env) else ""
  }

  function VersionOf(ctx: Option<SpanInfo>): string {
    if ctx.Some? && ctx.value.span.Some? then OrEmpty(ctx.value.span.value.version) else ""
  }

  /** Reading the tags of a context without a span dereferences nil. */
  predicate Panics(mode: string, ctx: Option<SpanInfo>) {
    Commenting(mode) && ctx.Some? && ctx.value.span.None?
  }

  function OrEmpty(s: Option<string>): string { if s.Some? then s.value else "" }

  function ParentTag(ctx: Option<SpanInfo>, spanId: nat): string {
    var traceId := if ctx.Some? && ctx.value.traceId != 0 then ctx.value.traceId else spanId;
    var sampled := if ctx.Some? && ctx.value.priority.Some? && ctx.value.priority.value > 0 then 1 else 0;
    TraceParent(traceId, spanId, sampled)
  }

  /** `tags` with `v` under `k`, unless `v` is empty. */
  function PutNonempty(tags: map<string, string>, k: string, v: string): map<string, string> {
    if v == "" then tags else tags[k := v]
  }

  function ServiceTags(tags: map<string, string>, ctx: Option<SpanInfo>, service: string, db: string): map<string, string> {
    PutNonempty(PutNonempty(PutNonempty(tags, KEY_PARENT_SERVICE, service), KEY_ENV, EnvOf(ctx)), KEY_PARENT_VERSION, VersionOf(ctx))
      [KEY_DB_SERVICE := db]
  }

  predicate Declared(mode: string) {
    mode == MODE_UNDEFINED || mode == MODE_DISABLED || mode == MODE_SERVICE || mode == MODE_FULL
  }

  predicate Commenting(mode: string) { mode == MODE_SERVICE || mode == MODE_FULL }

  function TagsFor(mode: string, ctx: Option<SpanInfo>, spanId: nat, service: string, db: string): map<string, string> {
    if mode == MODE_FULL then ServiceTags(map[KEY_TRACE_PARENT := ParentTag(ctx, spanId)], ctx, service, db)
    else if mode == MODE_SERVICE then ServiceTags(map[], ctx, service, db)
    else map[]
  }

  /** The query after Inject, which a panic leaves as it was. */
  function Injected(query: string, mode: string, ctx: Option<SpanInfo>, spanId: nat, service: string, db: string): string {
    if mode == MODE_UNDEFINED || mode == MODE_DISABLED || Panics(mode, ctx) then query
    else Commented(query, TagsFor(mode, ctx, spanId, service, db))
  }

  class SQLCommentCarrier {
    var query: string
    const mode: string
    const dbServiceName: string
    var spanId: nat

    constructor (query: string, mode: string, dbServiceName: string)
      ensures this.query == query && this.mode == mode && this.dbServiceName == dbServiceName && spanId == 0
    {
      this.query, this.mode, this.dbServiceName, this.spanId := query, mode, dbServiceName, 0;
    }

    /** `newId` is the span ID drawn by the generator, `service` the globally configured service name. */
    method Inject(ctx: Option<SpanInfo>, newId: nat, service: string) returns (panicked: bool)
      requires newId < U64 && (ctx.Some? ==> ctx.value.traceId < U64)
      modifies this
      ensures spanId == newId && (panicked <==> Panics(mode, ctx))
      ensures query == Injected(old(query), mode, ctx, newId, service, dbServiceName)
    {
      hide Commented, TraceParent;
      ModesDiffer();
      spanId := newId;
      var tags: map<string, string> := map[];
      if mode == MODE_UNDEFINED || mode == MODE_DISABLED {
        return false;
      }
      if mode == MODE_FULL {
        var samplingPriority, traceId := 0, 0;
        if ctx.Some? {
          if ctx.value.priority.Some? {
            samplingPriority := ctx.value.priority.value;
          }
          traceId := ctx.value.traceId;
        }
        if traceId == 0 {
          traceId := spanId;
        }
        var sampled := 0;
        if samplingPriority > 0 {
          sampled := 1;
        }
        var parent := EncodeTraceParent(traceId, spanId, sampled);
        tags := tags[KEY_TRACE_PARENT := parent];
      }
      if mode == MODE_FULL || mode == MODE_SERVICE {
        if ctx.Some? && ctx.value.span.None? {
          return true;
        }
        tags := AddServiceTags(tags, ctx, service, dbServiceName);
      }
      query := CommentQuery(query, tags);
      panicked := false;
    }
  }

  /** The part shared by the two commenting modes, for a context that has a span. */
  method AddServiceTags(given: map<string, string>, ctx: Option<SpanInfo>, service: string, db: string)
    returns (tags: map<string, string>)
    ensures tags == ServiceTags(given, ctx, service, db)
  {
    tags := given;
    var env, version := "", "";
    if ctx.Some? && ctx.value.span.Some? {
      if ctx.value.span.value.env.Some? {
        env := ctx.value.span.value.env.value;
      }
      if ctx.value.span.value.version.Some? {
        version := ctx.value.span.value.version.value;
      }
    }
    if service != "" {
      tags := tags[KEY_PARENT_SERVICE := service];
    }
    if env != "" {
      tags := tags[KEY_ENV := env];
    }
    if version != "" {
      tags := tags[KEY_PARENT_VERSION := version];
    }
    tags := tags[KEY_DB_SERVICE := db];
  }

  lemma KnownKeys()
    ensures KEY_DB_SERVICE in ORDERED_KEYS && KEY_ENV in ORDERED_KEYS && KEY_PARENT_SERVICE in ORDERED_KEYS
    ensures KEY_PARENT_VERSION in ORDERED_KEYS && KEY_TRACE_PARENT in ORDERED_KEYS
  {
    assert ORDERED_KEYS[0] == KEY_DB_SERVICE && ORDERED_KEYS[1] == KEY_ENV && ORDERED_KEYS[2] == KEY_PARENT_SERVICE;
    assert ORDERED_KEYS[3] == KEY_PARENT_VERSION && ORDERED_KEYS[4] == KEY_TRACE_PARENT;
  }

  lemma TagsForKeys(mode: string, ctx: Option<SpanInfo>, spanId: nat, service: string, db: string)
    ensures var tags := TagsFor(mode, ctx, spanId, service, db);
            && (forall k :: k in tags ==> k in ORDERED_KEYS)
            && (Commenting(mode) <==> tags != map[])
            && (Commenting(mode) ==> KEY_DB_SERVICE in tags)
  {
    hide ParentTag, EnvOf, VersionOf;
    KnownKeys();
    var tags := TagsFor(mode, ctx, spanId, service, db);
    assert Commenting(mode) ==> KEY_DB_SERVICE in tags;
    forall k | k in tags ensures k in ORDERED_KEYS {
      assert k == KEY_DB_SERVICE || k == KEY_ENV || k == KEY_PARENT_SERVICE || k == KEY_PARENT_VERSION || k == KEY_TRACE_PARENT;
    }
  }

  /** In a commenting mode the injected tags can be read back from the new query, in order, followed by the old query. */
  lemma InjectedReadsBack(query: string, mode: string, ctx: Option<SpanInfo>, spanId: nat, service: string, db: string)
    requires Commenting(mode) && !Panics(mode, ctx)
    ensures var tags := TagsFor(mode, ctx, spanId, service, db);
            var r := ReadComment(Injected(query, mode, ctx, spanId, service, db));
            && r.Some? && r.value.rest == (if query == "" then "" else " " + query)
            && SortedItems(r.value.tags) && MapOf(r.value.tags) == tags
  {
    hide TagsFor, Used, ReadComment, Commented, MapOf, SortedItems;
    var tags := TagsFor(mode, ctx, spanId, service, db);
    TagsForKeys(mode, ctx, spanId, service, db);
    TagsAreSorted(tags);
    UsedKeys(tags, ORDERED_KEYS);
    KnownKeys();
    assert Item(KEY_DB_SERVICE, tags[KEY_DB_SERVICE]) in Used(tags, ORDERED_KEYS);
    CommentReadsBack(query, tags);
    ModesDiffer();
  }

  /** In full mode a reader of the comment learns the trace, the drawn span ID and whether the trace is kept. */
  lemma FullModeCarriesContext(query: string, ctx: SpanInfo, spanId: nat, service: string, db: string)
    requires spanId < U64 && ctx.traceId < U64 && ctx.span.Some?
    ensures var r := ReadComment(Injected(query, MODE_FULL, Some(ctx), spanId, service, db));
            && r.Some? && KEY_TRACE_PARENT in MapOf(r.value.tags)
            && ReadTraceParent(MapOf(r.value.tags)[KEY_TRACE_PARENT])
               == Some((if ctx.traceId != 0 then ctx.traceId else spanId, spanId,
                        if ctx.priority.Some? && ctx.priority.value > 0 then 1 else 0))
  {
    hide ReadComment, Injected, MapOf, TraceParent, ReadTraceParent, EnvOf, VersionOf;
    InjectedReadsBack(query, MODE_FULL, Some(ctx), spanId, service, db);
    TraceParentReadsBack(if ctx.traceId != 0 then ctx.traceId else spanId, spanId,
                         if ctx.priority.Some? && ctx.priority.value > 0 then 1 else 0);
    assert KEY_TRACE_PARENT != KEY_DB_SERVICE && KEY_TRACE_PARENT != KEY_ENV
        && KEY_TRACE_PARENT != KEY_PARENT_SERVICE && KEY_TRACE_PARENT != KEY_PARENT_VERSION by { ParentKeyLonger(); }
  }

  /** A tag that is missing or empty is not written. */
  function Nonempty(tag: Option<string>): Option<string> { if tag == Some("") then None else tag }

  function Lookup(m: map<string, string>, k: string): Option<string> { if k in m then Some(m[k]) else None }

  /** What a reader learns in both commenting modes: the names that are set, and a traceparent in full mode only. */
  lemma CommentNamesServices(query: string, mode: string, ctx: Option<SpanInfo>, spanId: nat, service: string, db: string)
    requires Commenting(mode) && !Panics(mode, ctx)
    ensures var r := ReadComment(Injected(query, mode, ctx, spanId, service, db));
            r.Some? && var m := MapOf(r.value.tags);
            && Lookup(m, "dddbs") == Some(db)
            && Lookup(m, "ddps") == Nonempty(Some(service))
            && Lookup(m, "dde") == (if ctx.Some? then Nonempty(ctx.value.span.value.env) else None)
            && Lookup(m, "ddpv") == (if ctx.Some? then Nonempty(ctx.value.span.value.version) else None)
            && ("traceparent" in m <==> mode == "full")
  {
    hide ReadComment, Injected, MapOf, ParentTag;
    InjectedReadsBack(query, mode, ctx, spanId, service, db);
    ParentKeyLonger();
    KeysDiffer();
  }

  lemma KeysDiffer()
    ensures KEY_PARENT_SERVICE != KEY_PARENT_VERSION
  {
    assert KEY_PARENT_SERVICE[3] == 's' && KEY_PARENT_VERSION[3] == 'v';
  }

  lemma ParentKeyLonger()
    ensures |KEY_TRACE_PARENT| == 11 && |KEY_DB_SERVICE| == 5 && |KEY_ENV| == 3
    ensures |KEY_PARENT_SERVICE| == 4 && |KEY_PARENT_VERSION| == 4
  {
  }

  lemma ModesDiffer()
    ensures MODE_SERVICE != MODE_UNDEFINED && MODE_SERVICE != MODE_DISABLED
    ensures MODE_FULL != MODE_UNDEFINED && MODE_FULL != MODE_DISABLED
  {
    assert |MODE_SERVICE| == 7 && |MODE_DISABLED| == 8 && |MODE_FULL| == 4;
  }

  /** The text that is left after any leading comment this printer wrote. */
  predicate KeepsQuery(query: string, after: string) {
    after == query || (ReadComment(after).Some? && ReadComment(after).value.rest == if query == "" then "" else " " + query)
  }

  /** A mode that is none of the four declared ones loses the query, and only such a mode does. */
  lemma QueryKeptExactly(query: string, mode: string, ctx: Option<SpanInfo>, spanId: nat, service: string, db: string)
    ensures KeepsQuery(query, Injected(query, mode, ctx, spanId, service, db))
       <==> (Declared(mode) || query == "")
  {
    hide ReadComment, Used, ServiceTags;
    if Commenting(mode) && !Panics(mode, ctx) {
      InjectedReadsBack(query, mode, ctx, spanId, service, db);
    } else if !Declared(mode) {
      NothingToRead();
    }
  }

  lemma NothingToRead()
    ensures ReadComment("") == None
  {
  }
}
