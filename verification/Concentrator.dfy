/**
 * The running concentrator (ddtrace/tracer/stats.go): spans arrive on a bounded channel, an
 * ingester adds them to buckets, a flusher sends the buckets that have ended, and Stop drains
 * what is left.  One step per locked region or channel operation, in any order.
 */
module ConcentratorRuns {
  import opened Common
  import opened StatsModel

  const INCOMING_CAPACITY: nat := 10000

  datatype Phase =
    | Stopped
    | Running
    | Closing    // stop is closed, the two goroutines may be in their last round
    | Draining   // both goroutines have returned
    | Drained    // the channel was found empty, the last flush is still to come

  /** The concentrator, followed by what has passed through it. */
  datatype State = State(
    phase: Phase,
    incoming: seq<AggregableSpan>,
    buckets: map<int, RawBucket>,
    accepted: seq<AggregableSpan>,
    added: seq<AggregableSpan>,
    sent: seq<seq<StatsBucket>>,
    skipped: seq<StatsBucket>)

  datatype Action =
    | Offer(span: AggregableSpan)
    | Start
    | Ingest
    | Tick(now: int, visits: seq<Visit>)
    | RequestStop
    | Join
    | DrainEnd
    | LastFlush(now: int, visits: seq<Visit>)

  const INITIAL := State(Stopped, [], map[], [], [], [], [])

  ghost predicate Enabled(st: State, a: Action, size: int) {
    match a
    case Offer(_) => true
    case Start => st.phase == Stopped
    case Ingest => (st.phase == Running || st.phase == Closing || st.phase == Draining) && st.incoming != []
    case Tick(now, vs) => (st.phase == Running || st.phase == Closing) && FlushVisits(vs, st.buckets, now, size, false)
    case RequestStop => st.phase == Running
    case Join => st.phase == Closing
    case DrainEnd => st.phase == Draining && st.incoming == []
    case LastFlush(now, vs) => st.phase == Drained && FlushVisits(vs, st.buckets, now, size, true)
  }

  ghost function Flushed(st: State, vs: seq<Visit>, now: int, size: int, includeCurrent: bool): State
    requires FlushVisits(vs, st.buckets, now, size, includeCurrent)
  {
    st.(buckets := st.buckets - DueSet(st.buckets, now, size, includeCurrent),
        sent := if vs == [] then st.sent else st.sent + [Payload(st.buckets, vs, size)],
        skipped := st.skipped + SkippedParts(st.buckets, vs, size))
  }

  ghost function Step(st: State, a: Action, size: int): State
    requires size > 0 && Enabled(st, a, size)
  {
    match a
    case Offer(s) =>
      if |st.incoming| < INCOMING_CAPACITY
      then st.(incoming := st.incoming + [s], accepted := st.accepted + [s])
      else st
    case Start => st.(phase := Running)
    case Ingest =>
      var s := st.incoming[0];
      st.(incoming := st.incoming[1..], buckets := Add(st.buckets, s, size), added := st.added + [s])
    case Tick(now, vs) => Flushed(st, vs, now, size, false)
    case RequestStop => st.(phase := Closing)
    case Join => st.(phase := Draining)
    case DrainEnd => st.(phase := Drained)
    case LastFlush(now, vs) => Flushed(st, vs, now, size, true).(phase := Stopped)
  }

  ghost predicate Runs(st: State, actions: seq<Action>, size: int)
    requires size > 0
    decreases |actions|
  {
    actions == [] ||
    (Enabled(st, actions[0], size) && Runs(Step(st, actions[0], size), actions[1..], size))
  }

  ghost function After(st: State, actions: seq<Action>, size: int): State
    requires size > 0 && Runs(st, actions, size)
    decreases |actions|
  {
    if actions == [] then st else After(Step(st, actions[0], size), actions[1..], size)
  }

  // ---------------------------------------------------------------------
  // Conservation

  /** What became of one group so far: still held, sent to the agent, or skipped on a marshalling error. */
  function Account(st: State, ts: int, key: Key): Stats {
    Combine(Held(st.buckets, ts, key),
            Combine(Total(Flatten(st.sent), ToUint64(ts), key), Total(st.skipped, ToUint64(ts), key)))
  }

  ghost predicate Inv(st: State, size: int)
    requires size > 0
  {
    && (forall ts :: ts in st.buckets ==> IsInt64(ts))
    && st.accepted == st.added + st.incoming && |st.incoming| <= INCOMING_CAPACITY
    && (st.phase == Stopped ==> st.buckets == map[])
  }

  /** Every group accounts for exactly the spans added to it. */
  ghost predicate Balanced(st: State, size: int)
    requires size > 0
  {
    forall ts, key :: IsInt64(ts) ==> Account(st, ts, key) == GroupBy(st.added, size, ts, key)
  }

  lemma AddBalances(st: State, s: AggregableSpan, size: int, ts: int, key: Key)
    requires size > 0 && Account(st, ts, key) == GroupBy(st.added, size, ts, key)
    ensures var st' := st.(buckets := Add(st.buckets, s, size), added := st.added + [s]);
            Account(st', ts, key) == GroupBy(st'.added, size, ts, key)
  {
    hide Combine, Count, Held, Total, GroupBy, Add, BucketOf, ToUint64;
    HeldAfterAdd(st.buckets, s, size, ts, key);
    GroupBySnoc(st.added, s, size, ts, key);
    CountIntoSum(Held(st.buckets, ts, key),
                 Combine(Total(Flatten(st.sent), ToUint64(ts), key), Total(st.skipped, ToUint64(ts), key)), s);
  }

  lemma FlushKeepsAccount(st: State, vs: seq<Visit>, now: int, size: int, includeCurrent: bool, ts: int, key: Key)
    requires FlushVisits(vs, st.buckets, now, size, includeCurrent)
    requires IsInt64(ts) && forall b :: b in st.buckets ==> IsInt64(b)
    ensures Account(Flushed(st, vs, now, size, includeCurrent), ts, key) == Account(st, ts, key)
  {
    hide Combine, Total, Held, Visits, VisitOf, ToUint64, IsInt64, Payload, SkippedParts;
    var st' := Flushed(st, vs, now, size, includeCurrent);
    var start, p, q := ToUint64(ts), Payload(st.buckets, vs, size), SkippedParts(st.buckets, vs, size);
    PayloadTotal(st.buckets, vs, size, ts, key);
    SentTotal(st, p, start, key);
    TotalAppend(st.skipped, q, start, key);
    var a, b, x, y := Total(Flatten(st.sent), start, key), Total(st.skipped, start, key), Total(p, start, key), Total(q, start, key);
    Interchange(a, b, x, y);
    HeldAfterFlush(st.buckets, now, size, includeCurrent, ts, key);
    if exists i :: 0 <= i < |vs| && vs[i].ts == ts {
      CombineZero(Combine(Combine(a, b), Combine(x, y)));
      CombineComm(Combine(a, b), Combine(x, y));
    } else {
      CombineZero(Combine(a, b));
    }
  }

  /** Handing a payload over, or nothing when it is empty. */
  lemma SentTotal(st: State, p: seq<StatsBucket>, start: Counter, key: Key)
    ensures var sent := if p == [] then st.sent else st.sent + [p];
            Total(Flatten(sent), start, key) == Combine(Total(Flatten(st.sent), start, key), Total(p, start, key))
  {
    hide Combine;
    if p == [] {
      CombineZero(Total(Flatten(st.sent), start, key));
    } else {
      FlattenSnoc(st.sent, p);
      TotalAppend(Flatten(st.sent), p, start, key);
    }
  }

  lemma HeldAfterFlush(buckets: map<int, RawBucket>, now: int, size: int, includeCurrent: bool, ts: int, key: Key)
    ensures var due := DueSet(buckets, now, size, includeCurrent);
            Held(buckets - due, ts, key) == if ts in due then ZERO else Held(buckets, ts, key)
  {
  }

  lemma StepKeepsInv(st: State, a: Action, size: int)
    requires size > 0 && Enabled(st, a, size) && Inv(st, size)
    ensures Inv(Step(st, a, size), size)
  {
    hide Payload, SkippedParts, FlushVisits, IsInt64, HandleSpan, AlignTs, WrapInt64;
    if a.Ingest? {
      var s := st.incoming[0];
      AlignCovers(WrapInt64(s.start + s.duration), size);
    } else if a.LastFlush? {
      assert st.buckets - DueSet(st.buckets, a.now, size, true) == map[];
    }
  }

  lemma StepKeepsBalance(st: State, a: Action, size: int, ts: int, key: Key)
    requires size > 0 && Enabled(st, a, size) && Inv(st, size) && IsInt64(ts)
    requires Account(st, ts, key) == GroupBy(st.added, size, ts, key)
    ensures Account(Step(st, a, size), ts, key) == GroupBy(Step(st, a, size).added, size, ts, key)
  {
    hide Combine, Held, Total, GroupBy, FlushVisits, IsInt64, ToUint64, Add, Payload, SkippedParts, DueSet, Flatten;
    match a {
      case Ingest => AddBalances(st, st.incoming[0], size, ts, key);
      case Tick(now, vs) => FlushKeepsAccount(st, vs, now, size, false, ts, key);
      case LastFlush(now, vs) => FlushKeepsAccount(st, vs, now, size, true, ts, key);
      case _ =>
    }
  }

  lemma {:induction false} RunKeeps(st: State, actions: seq<Action>, size: int)
    requires size > 0 && Runs(st, actions, size) && Inv(st, size) && Balanced(st, size)
    ensures Inv(After(st, actions, size), size) && Balanced(After(st, actions, size), size)
    decreases |actions|
  {
    hide Inv, Enabled, Step, Account, GroupBy;
    if actions != [] {
      var next := Step(st, actions[0], size);
      StepKeepsInv(st, actions[0], size);
      forall ts, key | IsInt64(ts) ensures Account(next, ts, key) == GroupBy(next.added, size, ts, key) {
        StepKeepsBalance(st, actions[0], size, ts, key);
      }
      RunKeeps(next, actions[1..], size);
    }
  }

  lemma InitialBalanced(size: int)
    requires size > 0
    ensures Inv(INITIAL, size) && Balanced(INITIAL, size)
  {
    forall ts, key | IsInt64(ts) ensures Account(INITIAL, ts, key) == GroupBy([], size, ts, key) {
      CombineZero(ZERO);
    }
  }

  /**
   * In every run, for every bucket start and key, what was sent, what was skipped on a
   * marshalling error and what is still held add up to the group-by of the spans added; those
   * are, in order, the spans the channel accepted less the ones still in it; and once the
   * concentrator has stopped nothing is held.
   */
  lemma Conservation(actions: seq<Action>, size: int, ts: int, key: Key)
    requires size > 0 && Runs(INITIAL, actions, size) && IsInt64(ts)
    ensures var st := After(INITIAL, actions, size);
            && Combine(Held(st.buckets, ts, key),
                       Combine(Total(Flatten(st.sent), ToUint64(ts), key), Total(st.skipped, ToUint64(ts), key)))
               == GroupBy(st.added, size, ts, key)
            && st.accepted == st.added + st.incoming && |st.incoming| <= INCOMING_CAPACITY
            && (st.phase == Stopped ==> st.buckets == map[])
  {
    hide GroupBy, Combine, Held, Total;
    InitialBalanced(size);
    RunKeeps(INITIAL, actions, size);
  }

  // ---------------------------------------------------------------------
  // Without marshalling errors

  predicate NoErrors(actions: seq<Action>) {
    forall i :: 0 <= i < |actions| ==>
      match actions[i]
      case Tick(_, vs) => forall j :: 0 <= j < |vs| ==> vs[j].failed == {}
      case LastFlush(_, vs) => forall j :: 0 <= j < |vs| ==> vs[j].failed == {}
      case _ => true
  }

  ghost predicate SkippedNothing(bs: seq<StatsBucket>) {
    forall i :: 0 <= i < |bs| ==> bs[i].stats == []
  }

  lemma {:induction false} NothingSkippedTotal(bs: seq<StatsBucket>, start: Counter, key: Key)
    requires SkippedNothing(bs)
    ensures Total(bs, start, key) == ZERO
    decreases |bs|
  {
    if bs != [] {
      NothingSkippedTotal(bs[..|bs| - 1], start, key);
      CombineZero(ZERO);
    }
  }

  lemma {:induction false} NoFailuresNoSkips(data: RawBucket, keys: seq<Key>)
    requires forall k :: k in keys ==> k in data
    ensures Groups(data, keys, {}, true) == []
    decreases |keys|
  {
    if keys != [] {
      NoFailuresNoSkips(data, keys[..|keys| - 1]);
    }
  }

  lemma VisitsSkipNothing(buckets: map<int, RawBucket>, vs: seq<Visit>, size: int)
    requires Visits(vs, buckets) && forall j :: 0 <= j < |vs| ==> vs[j].failed == {}
    ensures SkippedNothing(SkippedParts(buckets, vs, size))
  {
    forall i | 0 <= i < |vs| ensures SkippedParts(buckets, vs, size)[i].stats == [] {
      NoFailuresNoSkips(buckets[vs[i].ts], vs[i].keys);
    }
  }

  lemma {:induction false} NoErrorsSkipNothing(st: State, actions: seq<Action>, size: int)
    requires size > 0 && Runs(st, actions, size) && NoErrors(actions) && SkippedNothing(st.skipped)
    ensures SkippedNothing(After(st, actions, size).skipped)
    decreases |actions|
  {
    hide Payload, SkippedParts, DueSet, Add, Visits;
    if actions != [] {
      match actions[0] {
        case Tick(_, vs) => VisitsSkipNothing(st.buckets, vs, size);
        case LastFlush(_, vs) => VisitsSkipNothing(st.buckets, vs, size);
        case _ =>
      }
      assert forall i :: 0 <= i < |actions[1..]| ==> actions[1..][i] == actions[i + 1];
      NoErrorsSkipNothing(Step(st, actions[0], size), actions[1..], size);
    }
  }

  /** After a stop, with every sketch marshalled, the payloads alone are the group-by of all spans taken in. */
  lemma StoppedMeansAllSent(actions: seq<Action>, size: int, ts: int, key: Key)
    requires size > 0 && Runs(INITIAL, actions, size) && IsInt64(ts) && NoErrors(actions)
    requires After(INITIAL, actions, size).phase == Stopped
    ensures var st := After(INITIAL, actions, size);
            Total(Flatten(st.sent), ToUint64(ts), key) == GroupBy(st.added, size, ts, key)
  {
    hide GroupBy, Combine, Total, Runs, After;
    var st := After(INITIAL, actions, size);
    Conservation(actions, size, ts, key);
    NoErrorsSkipNothing(INITIAL, actions, size);
    NothingSkippedTotal(st.skipped, ToUint64(ts), key);
    CombineZero(Total(Flatten(st.sent), ToUint64(ts), key));
  }

  // ---------------------------------------------------------------------
  // Periodic flushes

  /**
   * A tick sends exactly the held buckets whose window has ended: every span in a sent bucket
   * ended before `now`, and every bucket kept is still open.
   */
  lemma TickSendsEndedBuckets(st: State, now: int, vs: seq<Visit>, size: int, ts: int)
    requires size > 0 && Enabled(st, Tick(now, vs), size) && ts in st.buckets
    ensures var st' := Step(st, Tick(now, vs), size);
            && (ts in st'.buckets <==> ts + size > now)
            && (ts in st'.buckets ==> st'.buckets[ts] == st.buckets[ts])
            && ((exists i :: 0 <= i < |vs| && vs[i].ts == ts) <==> ts + size <= now)
            && (forall s: AggregableSpan :: BucketOf(s, size) == ts && ts !in st'.buckets ==>
                  WrapInt64(s.start + s.duration) < ts + size <= now)
  {
    hide Payload, SkippedParts, Visits, WrapInt64, AlignTs;
    forall s: AggregableSpan | BucketOf(s, size) == ts ensures WrapInt64(s.start + s.duration) < ts + size {
      AlignCovers(WrapInt64(s.start + s.duration), size);
    }
  }

  /** Spans with nonnegative ends fall in the bucket whose window holds their end. */
  lemma BucketHoldsEnd(s: AggregableSpan, size: int)
    requires size > 0 && IsInt64(s.start + s.duration)
    ensures var ts := BucketOf(s, size);
            && ts % size == 0
            && (ts <= s.start + s.duration < ts + size <==>
                  s.start + s.duration >= 0 || (s.start + s.duration) % size == 0)
  {
    hide AlignTs;
    AlignDivides(s.start + s.duration, size);
    AlignCovers(s.start + s.duration, size);
  }
}
