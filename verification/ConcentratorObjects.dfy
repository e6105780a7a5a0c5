/** The concentrator as an object: its locked operations, loop by loop, refine the steps of ConcentratorRuns. */
module ConcentratorObjects {
  import opened Common
  import opened StatsModel
  import DurationRounding

  /** rawBucket.handleSpan */
  method CountSpan(data: RawBucket, s: AggregableSpan) returns (r: RawBucket)
    ensures r == HandleSpan(data, s)
  {
    hide DurationRounding.Rounded, Add64;
    var gs := if s.key in data then data[s.key] else ZERO;
    if s.topLevel {
      gs := gs.(topLevelHits := Add64(gs.topLevelHits, 1));
    }
    gs := gs.(hits := Add64(gs.hits, 1));
    if s.error != 0 {
      gs := gs.(errors := Add64(gs.errors, 1));
    }
    gs := gs.(duration := Add64(gs.duration, ToUint64(s.duration)));
    var rounded := DurationRounding.NsTimestampToFloat(s.duration);
    if s.error != 0 {
      gs := gs.(err := gs.err + multiset{rounded});
    } else {
      gs := gs.(ok := gs.ok + multiset{rounded});
    }
    r := data[s.key := gs];
  }

  /** rawBucket.Export, visiting the groups in whatever order the map gives them. */
  method ExportBucket(ts: int, data: RawBucket, size: int, failed: set<Key>)
    returns (b: StatsBucket, ghost keys: seq<Key>)
    ensures Enumerates(keys, data.Keys)
    ensures b == StatsBucket(ToUint64(ts), ToUint64(size), Blanks(|data|) + Groups(data, keys, failed, false))
  {
    var stats := seq(|data|, i => BLANK);
    keys := [];
    var left := data.Keys;
    while left != {}
      invariant left <= data.Keys && Distinct(keys)
      invariant forall k :: k in data.Keys <==> k in left || k in keys
      invariant forall k :: k in keys ==> k !in left
      invariant stats == Blanks(|data|) + Groups(data, keys, failed, false)
      decreases |left|
    {
      hide Groups;
      var k :| k in left;
      GroupsSnoc(data, keys, k, failed);
      if k !in failed {
        stats := stats + [GroupedStats(k, data[k])];
      }
      keys := keys + [k];
      left := left - {k};
    }
    b := StatsBucket(ToUint64(ts), ToUint64(size), stats);
  }

  lemma GroupsSnoc(data: RawBucket, keys: seq<Key>, k: Key, failed: set<Key>)
    requires k in data && forall x :: x in keys ==> x in data
    ensures Groups(data, keys + [k], failed, false)
         == Groups(data, keys, failed, false) + if k in failed then [] else [GroupedStats(k, data[k])]
  {
    assert (keys + [k])[..|keys + [k]| - 1] == keys;
  }

  lemma VisitsSnoc(buckets: map<int, RawBucket>, vs: seq<Visit>, v: Visit, size: int)
    requires Visits(vs, buckets) && VisitOf(v, buckets)
    requires forall i :: 0 <= i < |vs| ==> vs[i].ts != v.ts
    ensures Visits(vs + [v], buckets)
    ensures Payload(buckets, vs + [v], size) == Payload(buckets, vs, size) + [Export(buckets, v, size)]
  {
    hide VisitOf, Export;
    var all := vs + [v];
    assert forall i :: 0 <= i < |all| ==> all[i] == if i < |vs| then vs[i] else v;
  }

  /** The timestamps visited so far are those due among the ones taken. */
  ghost predicate Covers(vs: seq<Visit>, due: set<int>, left: set<int>) {
    && (forall i :: 0 <= i < |vs| ==> vs[i].ts in due && vs[i].ts !in left)
    && (forall ts :: ts in due && ts !in left ==> exists i :: 0 <= i < |vs| && vs[i].ts == ts)
  }

  lemma CoversSnoc(vs: seq<Visit>, v: Visit, due: set<int>, left: set<int>)
    requires Covers(vs, due, left) && v.ts in due && v.ts in left
    ensures Covers(vs + [v], due, left - {v.ts})
  {
    var all := vs + [v];
    assert forall i :: 0 <= i < |vs| ==> all[i] == vs[i];
    assert all[|vs|] == v;
    forall ts | ts in due && ts !in left - {v.ts} ensures exists i :: 0 <= i < |all| && all[i].ts == ts {
      if ts != v.ts {
        var i :| 0 <= i < |vs| && vs[i].ts == ts;
        assert all[i].ts == ts;
      }
    }
  }

  /** The keys of bucket `ts` whose sketches fail to marshal. */
  function ErrorsAt(failed: map<int, set<Key>>, ts: int): set<Key> {
    if ts in failed then failed[ts] else {}
  }

  ghost predicate Failures(visits: seq<Visit>, failed: map<int, set<Key>>) {
    forall i :: 0 <= i < |visits| ==> visits[i].failed == ErrorsAt(failed, visits[i].ts)
  }

  lemma FailuresSnoc(visits: seq<Visit>, v: Visit, failed: map<int, set<Key>>)
    requires Failures(visits, failed) && v.failed == ErrorsAt(failed, v.ts)
    ensures Failures(visits + [v], failed)
  {
    hide ErrorsAt;
  }

  lemma CoversFresh(vs: seq<Visit>, v: Visit, due: set<int>, left: set<int>)
    requires Covers(vs, due, left) && v.ts in left
    ensures forall i :: 0 <= i < |vs| ==> vs[i].ts != v.ts
  {
  }

  lemma RemoveOne(all: map<int, RawBucket>, due: set<int>, left: set<int>, ts: int)
    requires ts in due
    ensures all - (due - left) - {ts} == all - (due - (left - {ts}))
  {
    assert (due - left) + {ts} == due - (left - {ts});
    assert all - (due - left) - {ts} == all - ((due - left) + {ts});
  }

  /** The flush loop over the buckets `all`: those `due` are visited, with `left` still to come. */
  datatype Flush = Flush(all: map<int, RawBucket>, due: set<int>, size: int, failed: map<int, set<Key>>) {

    ghost predicate At(buckets: map<int, RawBucket>, left: set<int>, visits: seq<Visit>, stats: seq<StatsBucket>) {
      && left <= all.Keys
      && buckets == all - (due - left)
      && Visits(visits, all) && Covers(visits, due, left) && Failures(visits, failed)
      && stats == Payload(all, visits, size)
    }

    lemma Begin()
      requires due <= all.Keys
      ensures At(all, all.Keys, [], [])
    {
      assert all - (due - all.Keys) == all;
    }

    lemma Next(buckets: map<int, RawBucket>, left: set<int>, visits: seq<Visit>, stats: seq<StatsBucket>, ts: int)
      requires At(buckets, left, visits, stats) && ts in left
      ensures ts in buckets && buckets[ts] == all[ts]
    {
      hide Visits, Payload, Covers, Failures;
    }

    lemma Take(buckets: map<int, RawBucket>, left: set<int>, visits: seq<Visit>, stats: seq<StatsBucket>,
               v: Visit, b: StatsBucket)
      requires At(buckets, left, visits, stats) && v.ts in left && v.ts in all && v.ts in due
      requires Enumerates(v.keys, all[v.ts].Keys) && v.failed == ErrorsAt(failed, v.ts)
      requires b == StatsBucket(ToUint64(v.ts), ToUint64(size),
                                Blanks(|all[v.ts]|) + Groups(all[v.ts], v.keys, v.failed, false))
      ensures At(buckets - {v.ts}, left - {v.ts}, visits + [v], stats + [b])
    {
      hide Visits, Payload, Groups, Covers, Failures;
      assert VisitOf(v, all) && Export(all, v, size) == b;
      hide VisitOf, Export;
      CoversFresh(visits, v, due, left);
      VisitsSnoc(all, visits, v, size);
      CoversSnoc(visits, v, due, left);
      FailuresSnoc(visits, v, failed);
      RemoveOne(all, due, left, v.ts);
    }

    lemma Skip(buckets: map<int, RawBucket>, left: set<int>, visits: seq<Visit>, stats: seq<StatsBucket>, ts: int)
      requires At(buckets, left, visits, stats) && ts !in due
      ensures At(buckets, left - {ts}, visits, stats)
    {
      hide Visits, Payload, Failures;
      assert due - (left - {ts}) == due - left;
    }

    lemma End(buckets: map<int, RawBucket>, visits: seq<Visit>, stats: seq<StatsBucket>, now: int, includeCurrent: bool)
      requires At(buckets, {}, visits, stats) && due == DueSet(all, now, size, includeCurrent)
      ensures FlushVisits(visits, all, now, size, includeCurrent) && Failures(visits, failed)
      ensures stats == Payload(all, visits, size) && |stats| == |visits|
      ensures buckets == all - due
    {
      hide VisitOf, Export, Failures;
      assert due - {} == due;
    }
  }

  lemma NotEmpty(s: set<int>)
    requires s != {}
    ensures exists x :: x in s
  {
    assert (forall x :: x !in s) ==> s == {};
  }

  class Concentrator {
    const bucketSize: int
    var buckets: map<int, RawBucket>
    var incoming: seq<AggregableSpan>
    var stopped: bool
    var sent: seq<seq<StatsBucket>> // payloads handed to the transport

    ghost predicate Valid()
      reads this
    {
      bucketSize > 0
    }

    constructor (size: int)
      requires size > 0
      ensures Valid() && bucketSize == size
      ensures buckets == map[] && incoming == [] && stopped && sent == []
    {
      bucketSize := size;
      buckets := map[];
      incoming := [];
      stopped := true;
      sent := [];
    }

    method Add(s: AggregableSpan)
      requires Valid()
      modifies this`buckets
      ensures buckets == StatsModel.Add(old(buckets), s, bucketSize)
    {
      var btime := BucketOf(s, bucketSize);
      var b := CountSpan(if btime in buckets then buckets[btime] else map[], s);
      buckets := buckets[btime := b];
    }

    /** Exports and deletes the due buckets; hands them over when there are any. */
    method FlushAndSend(now: int, includeCurrent: bool, failed: map<int, set<Key>>) returns (ghost visits: seq<Visit>)
      requires Valid()
      modifies this`buckets, this`sent
      ensures FlushVisits(visits, old(buckets), now, bucketSize, includeCurrent) && Failures(visits, failed)
      ensures buckets == old(buckets) - DueSet(old(buckets), now, bucketSize, includeCurrent)
      ensures sent == if visits == [] then old(sent) else old(sent) + [Payload(old(buckets), visits, bucketSize)]
    {
      hide Flush.At, FlushVisits, Payload, Failures, Groups, Enumerates;
      var stats: seq<StatsBucket> := [];
      visits := [];
      ghost var f := Flush(buckets, DueSet(buckets, now, bucketSize, includeCurrent), bucketSize, failed);
      f.Begin();
      var left := buckets.Keys;
      while left != {}
        invariant left <= f.all.Keys && f.At(buckets, left, visits, stats)
        invariant sent == old(sent)
        decreases |left|
      {
        assert exists ts :: ts in left by { NotEmpty(left); }
        var ts :| ts in left;
        f.Next(buckets, left, visits, stats, ts);
        if Due(ts, now, bucketSize, includeCurrent) {
          var errors := ErrorsAt(failed, ts);
          var b;
          ghost var keys;
          b, keys := ExportBucket(ts, buckets[ts], bucketSize, errors);
          ghost var v := Visit(ts, keys, errors);
          f.Take(buckets, left, visits, stats, v, b);
          stats := stats + [b];
          visits := visits + [v];
          buckets := buckets - {ts};
        } else {
          f.Skip(buckets, left, visits, stats, ts);
        }
        left := left - {ts};
      }
      f.End(buckets, visits, stats, now, includeCurrent);
      if |stats| != 0 {
        sent := sent + [stats];
      }
    }

    /** Takes what is left on the channel, then sends everything; nothing happens when already stopped. */
    method Stop(now: int, failed: map<int, set<Key>>) returns (ghost visits: seq<Visit>)
      requires Valid()
      modifies this
      ensures stopped
      ensures old(stopped) ==> buckets == old(buckets) && incoming == old(incoming) && sent == old(sent)
      ensures !old(stopped) ==> incoming == [] && buckets == map[]
      ensures !old(stopped) ==>
                var all := AddAll(old(buckets), old(incoming), bucketSize);
                FlushVisits(visits, all, now, bucketSize, true)
                && sent == old(sent) + if visits == [] then [] else [Payload(all, visits, bucketSize)]
    {
      hide FlushVisits, Payload, StatsModel.Add;
      visits := [];
      if stopped {
        return;
      }
      stopped := true;
      ghost var i := 0;
      while incoming != []
        invariant 0 <= i <= |old(incoming)| && incoming == old(incoming)[i..]
        invariant AddAll(buckets, incoming, bucketSize) == AddAll(old(buckets), old(incoming), bucketSize)
        invariant sent == old(sent) && stopped
        decreases |incoming|
      {
        var s := incoming[0];
        incoming := incoming[1..];
        Add(s);
        i := i + 1;
      }
      ghost var all := buckets;
      visits := FlushAndSend(now, true, failed);
      assert all - DueSet(all, now, bucketSize, true) == map[];
    }
  }

  function AddAll(buckets: map<int, RawBucket>, spans: seq<AggregableSpan>, size: int): map<int, RawBucket>
    requires size > 0
    decreases |spans|
  {
    if spans == [] then buckets
    else AddAll(StatsModel.Add(buckets, spans[0], size), spans[1..], size)
  }
}
