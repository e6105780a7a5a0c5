/**
 * The stats concentrator's buckets (ddtrace/tracer/stats.go): counters grouped by
 * bucket start and aggregation key, and what exporting a bucket sends.
 */
module StatsModel {
  import opened Common
  import DurationRounding

  // int64 and uint64 arithmetic

  const I63: int := 0x8000_0000_0000_0000

  type Counter = x: nat | x < U64

  predicate IsInt64(x: int) { -I63 <= x < I63 }

  function WrapInt64(x: int): (r: int)
    ensures IsInt64(r)
    ensures IsInt64(x) ==> r == x
  {
    (x + I63) % U64 - I63
  }

  /** uint64(x) */
  function ToUint64(x: int): Counter { x % U64 }

  /** Unsigned addition wraps around. */
  function Add64(a: Counter, b: Counter): Counter {
    if a + b < U64 then a + b else a + b - U64
  }

  function Rem(x: int, size: int): int
    requires size > 0
  {
    x % size
  }

  /** Go's remainder takes the sign of the dividend, so this truncates toward zero. */
  function AlignTs(ts: int, size: int): int
    requires size > 0
  {
    if ts >= 0 then ts - Rem(ts, size) else ts + Rem(-ts, size)
  }

  // Spans and their statistics

  datatype Key = Key(
    name: string, kind: string, resource: string, service: string, statusCode: nat, synthetics: bool)

  datatype AggregableSpan = AggregableSpan(key: Key, start: int, duration: int, error: int, topLevel: bool)

  /** A sketch is known by the values added to it. */
  datatype Stats = Stats(
    hits: Counter, topLevelHits: Counter, errors: Counter, duration: Counter,
    ok: multiset<int>, err: multiset<int>)

  type RawBucket = map<Key, Stats>

  datatype GroupedStats = GroupedStats(key: Key, stats: Stats)

  datatype StatsBucket = StatsBucket(start: Counter, duration: Counter, stats: seq<GroupedStats>)

  const ZERO: Stats := Stats(0, 0, 0, 0, multiset{}, multiset{})

  /** The zero value of groupedStats, which Export's pre-sized slice starts with. */
  const BLANK: GroupedStats := GroupedStats(Key("", "", "", "", 0, false), ZERO)

  function Combine(a: Stats, b: Stats): Stats {
    Stats(Add64(a.hits, b.hits), Add64(a.topLevelHits, b.topLevelHits), Add64(a.errors, b.errors),
          Add64(a.duration, b.duration), a.ok + b.ok, a.err + b.err)
  }

  function BucketOf(s: AggregableSpan, size: int): int
    requires size > 0
  {
    AlignTs(WrapInt64(s.start + s.duration), size)
  }

  /** One span counted into its group. */
  function Count(gs: Stats, s: AggregableSpan): Stats {
    var rounded := DurationRounding.Rounded(s.duration);
    Stats(Add64(gs.hits, 1),
          if s.topLevel then Add64(gs.topLevelHits, 1) else gs.topLevelHits,
          if s.error != 0 then Add64(gs.errors, 1) else gs.errors,
          Add64(gs.duration, ToUint64(s.duration)),
          if s.error != 0 then gs.ok else gs.ok + multiset{rounded},
          if s.error != 0 then gs.err + multiset{rounded} else gs.err)
  }

  function HandleSpan(data: RawBucket, s: AggregableSpan): RawBucket {
    data[s.key := Count(if s.key in data then data[s.key] else ZERO, s)]
  }

  function Add(buckets: map<int, RawBucket>, s: AggregableSpan, size: int): map<int, RawBucket>
    requires size > 0
  {
    var btime := BucketOf(s, size);
    buckets[btime := HandleSpan(if btime in buckets then buckets[btime] else map[], s)]
  }

  function Held(buckets: map<int, RawBucket>, ts: int, key: Key): Stats {
    if ts in buckets && key in buckets[ts] then buckets[ts][key] else ZERO
  }

  // ---------------------------------------------------------------------
  // The plain group-by

  function Members(spans: seq<AggregableSpan>, size: int, ts: int, key: Key): seq<AggregableSpan>
    requires size > 0
  {
    if spans == [] then []
    else
      var rest, s := Members(spans[..|spans| - 1], size, ts, key), spans[|spans| - 1];
      if BucketOf(s, size) == ts && s.key == key then rest + [s] else rest
  }

  function Select(spans: seq<AggregableSpan>, which: AggregableSpan -> bool): seq<AggregableSpan> {
    if spans == [] then []
    else
      var rest, s := Select(spans[..|spans| - 1], which), spans[|spans| - 1];
      if which(s) then rest + [s] else rest
  }

  function TotalDuration(spans: seq<AggregableSpan>): int {
    if spans == [] then 0
    else TotalDuration(spans[..|spans| - 1]) + spans[|spans| - 1].duration
  }

  function Durations(spans: seq<AggregableSpan>): multiset<int> {
    multiset(seq(|spans|, i requires 0 <= i < |spans| => DurationRounding.Rounded(spans[i].duration)))
  }

  predicate IsTopLevel(s: AggregableSpan) { s.topLevel }

  predicate HasFailed(s: AggregableSpan) { s.error != 0 }

  predicate HasSucceeded(s: AggregableSpan) { s.error == 0 }

  /** What a group of spans amounts to, counted all at once. */
  function Summary(spans: seq<AggregableSpan>): Stats {
    Stats(ToUint64(|spans|), ToUint64(|Select(spans, IsTopLevel)|), ToUint64(|Select(spans, HasFailed)|),
          ToUint64(TotalDuration(spans)),
          Durations(Select(spans, HasSucceeded)), Durations(Select(spans, HasFailed)))
  }

  function GroupBy(spans: seq<AggregableSpan>, size: int, ts: int, key: Key): Stats
    requires size > 0
  {
    Summary(Members(spans, size, ts, key))
  }

  // ---------------------------------------------------------------------
  // Export and flush

  /** How one bucket is visited: its keys in map order, and those whose sketches fail to marshal. */
  datatype Visit = Visit(ts: int, keys: seq<Key>, failed: set<Key>)

  function Blanks(n: nat): seq<GroupedStats> { seq(n, i => BLANK) }

  function Groups(data: RawBucket, keys: seq<Key>, failed: set<Key>, lost: bool): seq<GroupedStats>
    requires forall k :: k in keys ==> k in data
  {
    if keys == [] then []
    else
      var rest, k := Groups(data, keys[..|keys| - 1], failed, lost), keys[|keys| - 1];
      if (k in failed) == lost then rest + [GroupedStats(k, data[k])] else rest
  }

  ghost predicate VisitOf(v: Visit, buckets: map<int, RawBucket>) {
    v.ts in buckets && Enumerates(v.keys, buckets[v.ts].Keys)
  }

  ghost function Export(buckets: map<int, RawBucket>, v: Visit, size: int): StatsBucket
    requires VisitOf(v, buckets)
  {
    var data := buckets[v.ts];
    StatsBucket(ToUint64(v.ts), ToUint64(size), Blanks(|data|) + Groups(data, v.keys, v.failed, false))
  }

  /** The groups that were logged and skipped. */
  ghost function Skipped(buckets: map<int, RawBucket>, v: Visit, size: int): StatsBucket
    requires VisitOf(v, buckets)
  {
    StatsBucket(ToUint64(v.ts), ToUint64(size), Groups(buckets[v.ts], v.keys, v.failed, true))
  }

  predicate Due(ts: int, now: int, size: int, includeCurrent: bool) {
    includeCurrent || ts <= now - size
  }

  function DueSet(buckets: map<int, RawBucket>, now: int, size: int, includeCurrent: bool): set<int> {
    set ts | ts in buckets && Due(ts, now, size, includeCurrent)
  }

  ghost predicate Visits(vs: seq<Visit>, buckets: map<int, RawBucket>) {
    && (forall i :: 0 <= i < |vs| ==> VisitOf(vs[i], buckets))
    && (forall i, j :: 0 <= i < j < |vs| ==> vs[i].ts != vs[j].ts)
  }

  /** `vs` visits the due buckets, each once, in some order. */
  ghost predicate FlushVisits(vs: seq<Visit>, buckets: map<int, RawBucket>, now: int, size: int,
                              includeCurrent: bool)
  {
    && Visits(vs, buckets)
    && forall ts :: ts in DueSet(buckets, now, size, includeCurrent) <==>
                    exists i :: 0 <= i < |vs| && vs[i].ts == ts
  }

  ghost function Payload(buckets: map<int, RawBucket>, vs: seq<Visit>, size: int): (p: seq<StatsBucket>)
    requires Visits(vs, buckets)
    ensures |p| == |vs|
  {
    seq(|vs|, i requires 0 <= i < |vs| => Export(buckets, vs[i], size))
  }

  ghost function SkippedParts(buckets: map<int, RawBucket>, vs: seq<Visit>, size: int): (p: seq<StatsBucket>)
    requires Visits(vs, buckets)
    ensures |p| == |vs|
  {
    seq(|vs|, i requires 0 <= i < |vs| => Skipped(buckets, vs[i], size))
  }

  // What a list of exported buckets says about one group

  function GroupTotal(gs: seq<GroupedStats>, key: Key): Stats {
    if gs == [] then ZERO
    else
      var rest, g := GroupTotal(gs[..|gs| - 1], key), gs[|gs| - 1];
      if g.key == key then Combine(rest, g.stats) else rest
  }

  function Total(bs: seq<StatsBucket>, start: Counter, key: Key): Stats {
    if bs == [] then ZERO
    else
      var rest, b := Total(bs[..|bs| - 1], start, key), bs[|bs| - 1];
      if b.start == start then Combine(rest, GroupTotal(b.stats, key)) else rest
  }

  // ---------------------------------------------------------------------
  // Alignment

  /** A bucket covers its span's end; from below only when the end is not negative. */
  lemma AlignCovers(ts: int, size: int)
    requires size > 0
    ensures ts < AlignTs(ts, size) + size
    ensures AlignTs(ts, size) <= ts <==> ts >= 0 || Rem(ts, size) == 0
    ensures IsInt64(ts) ==> IsInt64(AlignTs(ts, size))
  {
    hide Rem;
    RemRange(ts, size);
    RemRange(-ts, size);
    RemSign(ts, size);
  }

  lemma RemRange(x: int, size: int)
    requires size > 0
    ensures 0 <= Rem(x, size) < size && (x >= 0 ==> Rem(x, size) <= x)
  {
    if x >= 0 {
      assert x / size >= 0;
      assert x == x / size * size + x % size;
    }
  }

  lemma RemSign(x: int, size: int)
    requires size > 0
    ensures Rem(-x, size) == 0 <==> Rem(x, size) == 0
  {
    if x % size == 0 {
      NegativeRemainder(x, size);
    } else if (-x) % size == 0 {
      NegativeRemainder(-x, size);
    }
  }

  lemma AlignDivides(ts: int, size: int)
    requires size > 0
    ensures AlignTs(ts, size) % size == 0
  {
    if ts >= 0 {
      SubtractRemainder(ts, size);
    } else {
      SubtractRemainder(-ts, size);
      NegativeRemainder(-ts - (-ts) % size, size);
    }
  }

  lemma SubtractRemainder(x: int, size: int)
    requires size > 0
    ensures x - x % size == x / size * size
    ensures (x - x % size) % size == 0
  {
    MultipleOf(x / size, size);
  }

  lemma MultipleOf(q: int, size: int)
    requires size > 0
    ensures q * size % size == 0
  {
    DurationRounding.DivExact(q, size);
    assert q * size == q * size / size * size + q * size % size;
  }

  lemma NegativeRemainder(x: int, size: int)
    requires size > 0 && x % size == 0
    ensures (-x) % size == 0
  {
    var q := x / size;
    assert -x == (-q) * size by {
      assert (-q) * size == -(q * size);
    }
    MultipleOf(-q, size);
  }

  lemma ToUint64Injective(a: int, b: int)
    requires IsInt64(a) && IsInt64(b) && ToUint64(a) == ToUint64(b)
    ensures a == b
  {
  }

  // ---------------------------------------------------------------------
  // Sums modulo 2^64

  lemma Add64Mod(a: int, b: int)
    ensures Add64(ToUint64(a), ToUint64(b)) == ToUint64(a + b)
  {
  }

  lemma Add64Assoc(a: Counter, b: Counter, c: Counter)
    ensures Add64(Add64(a, b), c) == Add64(a, Add64(b, c))
  {
  }

  lemma CombineAssoc(a: Stats, b: Stats, c: Stats)
    ensures Combine(Combine(a, b), c) == Combine(a, Combine(b, c))
  {
    hide Add64;
    Add64Assoc(a.hits, b.hits, c.hits);
    Add64Assoc(a.topLevelHits, b.topLevelHits, c.topLevelHits);
    Add64Assoc(a.errors, b.errors, c.errors);
    Add64Assoc(a.duration, b.duration, c.duration);
  }

  lemma CombineComm(a: Stats, b: Stats)
    ensures Combine(a, b) == Combine(b, a)
  {
  }

  lemma CombineZero(a: Stats)
    ensures Combine(a, ZERO) == a && Combine(ZERO, a) == a
  {
    assert a.ok + multiset{} == a.ok && a.err + multiset{} == a.err;
    assert multiset{} + a.ok == a.ok && multiset{} + a.err == a.err;
  }

  /** Counting a span into one part of a sum counts it into the sum. */
  lemma CountIntoSum(a: Stats, b: Stats, s: AggregableSpan)
    ensures Combine(Count(a, s), b) == Count(Combine(a, b), s)
  {
    hide Add64, DurationRounding.Rounded, ToUint64;
    Add64Middle(a.hits, 1, b.hits);
    Add64Middle(a.topLevelHits, 1, b.topLevelHits);
    Add64Middle(a.errors, 1, b.errors);
    Add64Middle(a.duration, ToUint64(s.duration), b.duration);
    var rounded := DurationRounding.Rounded(s.duration);
    assert (a.ok + multiset{rounded}) + b.ok == (a.ok + b.ok) + multiset{rounded};
    assert (a.err + multiset{rounded}) + b.err == (a.err + b.err) + multiset{rounded};
  }

  lemma Add64Middle(a: Counter, x: Counter, b: Counter)
    ensures Add64(Add64(a, x), b) == Add64(Add64(a, b), x)
  {
  }

  // ---------------------------------------------------------------------
  // The incremental counters agree with the group-by

  lemma SummarySnoc(spans: seq<AggregableSpan>, s: AggregableSpan)
    ensures Summary(spans + [s]) == Count(Summary(spans), s)
  {
    hide ToUint64, Add64, DurationRounding.Rounded;
    var all := spans + [s];
    assert all[..|all| - 1] == spans;
    Add64Mod(|spans|, 1);
    Add64Mod(|Select(spans, IsTopLevel)|, 1);
    Add64Mod(|Select(spans, HasFailed)|, 1);
    Add64Mod(TotalDuration(spans), s.duration);
    assert ToUint64(1) == 1 by { SmallUint64(1); }
    DurationsSnoc(Select(spans, HasSucceeded), s);
    DurationsSnoc(Select(spans, HasFailed), s);
  }

  lemma SmallUint64(x: Counter)
    ensures ToUint64(x) == x
  {
  }

  lemma DurationsSnoc(spans: seq<AggregableSpan>, s: AggregableSpan)
    ensures Durations(spans + [s]) == Durations(spans) + multiset{DurationRounding.Rounded(s.duration)}
  {
    hide DurationRounding.Rounded;
    var all := spans + [s];
    var ds := seq(|spans|, i requires 0 <= i < |spans| => DurationRounding.Rounded(spans[i].duration));
    assert seq(|all|, i requires 0 <= i < |all| => DurationRounding.Rounded(all[i].duration))
        == ds + [DurationRounding.Rounded(s.duration)];
  }

  lemma HeldAfterAdd(buckets: map<int, RawBucket>, s: AggregableSpan, size: int, ts: int, key: Key)
    requires size > 0
    ensures Held(Add(buckets, s, size), ts, key)
         == if BucketOf(s, size) == ts && s.key == key then Count(Held(buckets, ts, key), s)
            else Held(buckets, ts, key)
  {
    hide Count, BucketOf;
  }

  lemma GroupBySnoc(spans: seq<AggregableSpan>, s: AggregableSpan, size: int, ts: int, key: Key)
    requires size > 0
    ensures GroupBy(spans + [s], size, ts, key)
         == if BucketOf(s, size) == ts && s.key == key then Count(GroupBy(spans, size, ts, key), s)
            else GroupBy(spans, size, ts, key)
  {
    hide Summary, Count, BucketOf;
    assert (spans + [s])[..|spans + [s]| - 1] == spans;
    if BucketOf(s, size) == ts && s.key == key {
      SummarySnoc(Members(spans, size, ts, key), s);
    }
  }

  // ---------------------------------------------------------------------
  // Exporting conserves

  lemma {:induction false} TotalAppend(xs: seq<StatsBucket>, ys: seq<StatsBucket>, start: Counter, key: Key)
    ensures Total(xs + ys, start, key) == Combine(Total(xs, start, key), Total(ys, start, key))
    decreases |ys|
  {
    hide Combine, GroupTotal;
    if ys == [] {
      assert xs + ys == xs;
      CombineZero(Total(xs, start, key));
    } else {
      var n := |ys| - 1;
      assert (xs + ys)[..|xs + ys| - 1] == xs + ys[..n];
      TotalAppend(xs, ys[..n], start, key);
      CombineAssoc(Total(xs, start, key), Total(ys[..n], start, key), GroupTotal(ys[n].stats, key));
    }
  }

  lemma {:induction false} BlanksWeighNothing(n: nat, gs: seq<GroupedStats>, key: Key)
    ensures GroupTotal(Blanks(n) + gs, key) == GroupTotal(gs, key)
    decreases n + |gs|
  {
    hide Combine;
    var all := Blanks(n) + gs;
    if gs != [] {
      assert all[..|all| - 1] == Blanks(n) + gs[..|gs| - 1];
      BlanksWeighNothing(n, gs[..|gs| - 1], key);
    } else if n > 0 {
      assert all[..|all| - 1] == Blanks(n - 1) + [];
      BlanksWeighNothing(n - 1, [], key);
      CombineZero(ZERO);
    }
  }

  /** Between the groups exported and the groups skipped, every key counts once. */
  lemma {:induction false} GroupsTotal(data: RawBucket, keys: seq<Key>, failed: set<Key>, key: Key)
    requires Distinct(keys) && forall k :: k in keys ==> k in data
    ensures Combine(GroupTotal(Groups(data, keys, failed, false), key),
                    GroupTotal(Groups(data, keys, failed, true), key))
         == if key in keys then data[key] else ZERO
    decreases |keys|
  {
    hide Combine;
    if keys == [] {
      CombineZero(ZERO);
    } else {
      var front, k := keys[..|keys| - 1], keys[|keys| - 1];
      assert keys == front + [k];
      GroupsTotal(data, front, failed, key);
      var good := GroupTotal(Groups(data, front, failed, false), key);
      var bad := GroupTotal(Groups(data, front, failed, true), key);
      GroupTotalSnoc(Groups(data, front, failed, false), GroupedStats(k, data[k]), key);
      GroupTotalSnoc(Groups(data, front, failed, true), GroupedStats(k, data[k]), key);
      if k == key {
        assert key !in front;
        MoveInto(good, bad, data[k]);
      }
    }
  }

  lemma GroupTotalSnoc(gs: seq<GroupedStats>, g: GroupedStats, key: Key)
    ensures GroupTotal(gs + [g], key)
         == if g.key == key then Combine(GroupTotal(gs, key), g.stats) else GroupTotal(gs, key)
  {
    assert (gs + [g])[..|gs + [g]| - 1] == gs;
  }

  lemma MoveInto(a: Stats, b: Stats, x: Stats)
    requires Combine(a, b) == ZERO
    ensures Combine(Combine(a, x), b) == x && Combine(a, Combine(b, x)) == x
  {
    hide Combine;
    CombineAssoc(a, b, x);
    CombineZero(x);
    CombineAssoc(a, x, b);
    CombineComm(x, b);
  }

  lemma ExportTotal(buckets: map<int, RawBucket>, v: Visit, size: int, key: Key)
    requires VisitOf(v, buckets)
    ensures Combine(GroupTotal(Export(buckets, v, size).stats, key),
                    GroupTotal(Skipped(buckets, v, size).stats, key))
         == Held(buckets, v.ts, key)
  {
    hide Combine, GroupTotal, Groups;
    var data := buckets[v.ts];
    BlanksWeighNothing(|data|, Groups(data, v.keys, v.failed, false), key);
    GroupsTotal(data, v.keys, v.failed, key);
  }

  /** Sums of two accounts, entered line by line. */
  lemma Interchange(a: Stats, b: Stats, x: Stats, y: Stats)
    ensures Combine(Combine(a, x), Combine(b, y)) == Combine(Combine(a, b), Combine(x, y))
  {
    hide Combine;
    CombineAssoc(a, x, Combine(b, y));
    CombineAssoc(x, b, y);
    CombineComm(x, b);
    CombineAssoc(b, x, y);
    CombineAssoc(a, b, Combine(x, y));
  }

  lemma {:induction false} PayloadTotal(buckets: map<int, RawBucket>, vs: seq<Visit>, size: int, ts: int, key: Key)
    requires Visits(vs, buckets) && IsInt64(ts) && forall b :: b in buckets ==> IsInt64(b)
    ensures Combine(Total(Payload(buckets, vs, size), ToUint64(ts), key),
                    Total(SkippedParts(buckets, vs, size), ToUint64(ts), key))
         == if exists i :: 0 <= i < |vs| && vs[i].ts == ts then Held(buckets, ts, key) else ZERO
    decreases |vs|
  {
    hide Combine, GroupTotal, Held, VisitOf, ToUint64, IsInt64, Export, Skipped;
    if vs == [] {
      CombineZero(ZERO);
    } else {
      var front, v := vs[..|vs| - 1], vs[|vs| - 1];
      PayloadTotal(buckets, front, size, ts, key);
      PayloadSnoc(buckets, front, v, size, ts, key);
      hide Total, Payload, SkippedParts;
      assert vs == front + [v];
      var start := ToUint64(ts);
      var p, q := Total(Payload(buckets, front, size), start, key), Total(SkippedParts(buckets, front, size), start, key);
      assert v.ts in buckets by { VisitKnown(v, buckets); }
      if v.ts == ts {
        assert !exists i :: 0 <= i < |front| && front[i].ts == ts;
        ExportTotal(buckets, v, size, key);
        Interchange(p, q, GroupTotal(Export(buckets, v, size).stats, key), GroupTotal(Skipped(buckets, v, size).stats, key));
        CombineZero(Held(buckets, ts, key));
        assert vs[|vs| - 1].ts == ts;
      } else {
        assert ToUint64(v.ts) != start by {
          if ToUint64(v.ts) == start { ToUint64Injective(v.ts, ts); }
        }
        assert forall i :: 0 <= i < |front| ==> vs[i] == front[i];
      }
    }
  }

  lemma VisitKnown(v: Visit, buckets: map<int, RawBucket>)
    requires VisitOf(v, buckets)
    ensures v.ts in buckets
  {
  }

  lemma PayloadSnoc(buckets: map<int, RawBucket>, front: seq<Visit>, v: Visit, size: int, ts: int, key: Key)
    requires Visits(front + [v], buckets)
    ensures Visits(front, buckets) && VisitOf(v, buckets)
    ensures Total(Payload(buckets, front + [v], size), ToUint64(ts), key)
         == if ToUint64(v.ts) == ToUint64(ts)
            then Combine(Total(Payload(buckets, front, size), ToUint64(ts), key),
                         GroupTotal(Export(buckets, v, size).stats, key))
            else Total(Payload(buckets, front, size), ToUint64(ts), key)
    ensures Total(SkippedParts(buckets, front + [v], size), ToUint64(ts), key)
         == if ToUint64(v.ts) == ToUint64(ts)
            then Combine(Total(SkippedParts(buckets, front, size), ToUint64(ts), key),
                         GroupTotal(Skipped(buckets, v, size).stats, key))
            else Total(SkippedParts(buckets, front, size), ToUint64(ts), key)
  {
    hide Combine, GroupTotal, VisitOf, ToUint64;
    var vs := front + [v];
    assert forall i :: 0 <= i < |front| ==> vs[i] == front[i];
    assert vs[|front|] == v;
    assert Payload(buckets, vs, size)[..|front|] == Payload(buckets, front, size);
    assert SkippedParts(buckets, vs, size)[..|front|] == SkippedParts(buckets, front, size);
  }

  /** Exactly half of an exported bucket's entries are blank when every sketch marshals. */
  lemma {:induction false} ExportShape(buckets: map<int, RawBucket>, v: Visit, size: int)
    requires VisitOf(v, buckets) && v.failed == {}
    ensures var gs := Export(buckets, v, size).stats; var n := |buckets[v.ts]|;
            && |gs| == 2 * n && |v.keys| == n
            && (forall i :: 0 <= i < n ==> gs[i] == BLANK)
            && (forall i :: 0 <= i < n ==> gs[n + i] == GroupedStats(v.keys[i], buckets[v.ts][v.keys[i]]))
  {
    hide Held;
    EnumerationLength(v.keys, buckets[v.ts].Keys);
    AllExported(buckets[v.ts], v.keys);
  }

  lemma {:induction false} AllExported(data: RawBucket, keys: seq<Key>)
    requires forall k :: k in keys ==> k in data
    ensures |Groups(data, keys, {}, false)| == |keys|
    ensures forall i :: 0 <= i < |keys| ==> Groups(data, keys, {}, false)[i] == GroupedStats(keys[i], data[keys[i]])
    decreases |keys|
  {
    if keys != [] {
      AllExported(data, keys[..|keys| - 1]);
    }
  }

  lemma {:induction false} EnumerationLength<T>(xs: seq<T>, s: set<T>)
    requires Enumerates(xs, s)
    ensures |xs| == |s|
    decreases |xs|
  {
    if xs == [] {
      assert s == {};
    } else {
      var x, front := xs[|xs| - 1], xs[..|xs| - 1];
      assert xs == front + [x];
      assert Enumerates(front, s - {x});
      EnumerationLength(front, s - {x});
      assert |s - {x}| == |s| - 1;
    }
  }
}
