/**
 The token bucket by the callers' clock (internal/appsec/limiter.go): the ticker's channel holds one
 tick, later ticks are dropped while it is full, and the refilling goroutine may be delayed at any
 point, so that the stamps it works with lag behind the clock.
 */
module WallClock {
  import opened Common
  import opened TokenBucket

  datatype Clocked = Clocked(bucket: Bucket, now: int, pending: Option<int>)

  datatype Event =
    | Pass(ns: nat)     // time passes
    | Fire              // the ticker fires
    | Deliver           // the refiller receives the tick in the channel
    | Do(a: Action)     // any other step of the refiller or of a caller

  predicate Can(w: Clocked, e: Event) {
    match e
    case Pass(_) => true
    case Fire => true
    case Deliver => w.pending.Some? && Enabled(w.bucket, Tick(w.pending.value))
    case Do(a) => !a.Tick? && Enabled(w.bucket, a)
  }

  function Next(w: Clocked, e: Event): (z: Clocked)
    requires Sane(w.bucket.maxTokens) && Can(w, e)
    ensures z.bucket.maxTokens == w.bucket.maxTokens
  {
    match e
    case Pass(ns) => w.(now := w.now + ns)
    case Fire => if w.pending.None? then w.(pending := Some(w.now)) else w
    case Deliver => w.(bucket := Step(w.bucket, Tick(w.pending.value)), pending := None)
    case Do(a) => w.(bucket := Step(w.bucket, a))
  }

  predicate Happens(w: Clocked, events: seq<Event>)
    requires Sane(w.bucket.maxTokens)
    decreases |events|
  {
    events == [] || (Can(w, events[0]) && Happens(Next(w, events[0]), events[1..]))
  }

  function Then(w: Clocked, events: seq<Event>): (z: Clocked)
    requires Sane(w.bucket.maxTokens) && Happens(w, events)
    ensures z.bucket.maxTokens == w.bucket.maxTokens
    decreases |events|
  {
    if events == [] then w else Then(Next(w, events[0]), events[1..])
  }

  function Begin(maxTokens: int, startTime: int): Clocked {
    Clocked(New(maxTokens, maxTokens, startTime), startTime, None)
  }

  // ---------- The bound ----------

  /** The stamp up to which the passing of time is accounted for. */
  function Last(w: Clocked): int { if w.pending.Some? then w.pending.value else w.bucket.prevStamp }

  predicate ClockInv(w: Clocked) {
    Inv(w.bucket) && w.bucket.prevStamp <= Last(w) <= w.now
  }

  function Full(w: Clocked): int
    requires w.bucket.maxTokens > 0
  {
    w.bucket.maxTokens * NsPerToken(w.bucket.maxTokens)
  }

  /** The potential, and what the tick in the channel and the next one can still add to it. */
  function Credit(w: Clocked): int
    requires w.bucket.maxTokens > 0
  {
    Potential(w.bucket) + Min(Last(w) - w.bucket.prevStamp, Full(w)) + Min(w.now - Last(w), Full(w))
  }

  lemma NextKeeps(w: Clocked, e: Event)
    requires ClockInv(w) && Can(w, e)
    ensures ClockInv(Next(w, e)) && Credit(Next(w, e)) - Credit(w) <= Next(w, e).now - w.now
  {
    hide NsPerToken;
    SaneMeansNoDivisionByZero(w.bucket.maxTokens);
    match e {
      case Deliver =>
        StepKeepsInv(w.bucket, Tick(w.pending.value));
        TickAdds(w.bucket, w.pending.value);
      case Do(a) =>
        StepKeepsInv(w.bucket, a);
        StepSpendsTime(w.bucket, a);
        OnlyTicksStamp(w.bucket, a);
        hide Step, Inv, Potential;
      case _ =>
        MulMonotone(0, w.bucket.maxTokens, NsPerToken(w.bucket.maxTokens));
    }
  }

  lemma OnlyTicksStamp(b: Bucket, a: Action)
    requires Sane(b.maxTokens) && Enabled(b, a) && !a.Tick?
    ensures Step(b, a).prevStamp == b.prevStamp && Step(b, a).maxTokens == b.maxTokens
  {
  }

  /** A tick adds at most one full bucket's worth of time, however long it was under way. */
  lemma TickAdds(b: Bucket, stamp: int)
    requires Inv(b) && Enabled(b, Tick(stamp))
    ensures var z, full := Step(b, Tick(stamp)), b.maxTokens * NsPerToken(b.maxTokens);
      && z.prevStamp == stamp && z.maxTokens == b.maxTokens
      && Potential(z) - Potential(b) <= Min(stamp - b.prevStamp, full)
  {
    hide NsPerToken;
  }

  lemma {:induction false} CreditBound(w: Clocked, events: seq<Event>)
    requires ClockInv(w) && Happens(w, events)
    ensures ClockInv(Then(w, events)) && Credit(Then(w, events)) - Credit(w) <= Then(w, events).now - w.now
    decreases |events|
  {
    assert Sane(w.bucket.maxTokens);
    hide Next, Can, Credit, ClockInv;
    if events != [] {
      NextKeeps(w, events[0]);
      CreditBound(Next(w, events[0]), events[1..]);
    }
  }

  /**
   By the callers' clock, at most four full buckets plus one token per nsPerToken are granted in
   any window: the bucket, a refill that was interrupted, the tick in the channel and the next one.
   */
  lemma WallClockBound(maxTokens: int, startTime: int, before: seq<Event>, window: seq<Event>)
    requires Sane(maxTokens) && Happens(Begin(maxTokens, startTime), before)
    requires Happens(Then(Begin(maxTokens, startTime), before), window)
    ensures var w := Then(Begin(maxTokens, startTime), before); var z := Then(w, window); var ns := NsPerToken(maxTokens);
      ns >= 1 && z.bucket.grants - w.bucket.grants <= 4 * maxTokens + (z.now - w.now) / ns
  {
    var b := Begin(maxTokens, startTime);
    SaneMeansNoDivisionByZero(maxTokens);
    assert ClockInv(b) by { MulMonotone(0, maxTokens, NsPerToken(maxTokens)); }
    CreditBound(b, before);
    var w := Then(b, before);
    CreditBound(w, window);
    var z := Then(w, window);
    hide NsPerToken, Happens, Then;
    WallArithmetic(w, z, NsPerToken(maxTokens));
  }

  lemma WallArithmetic(w: Clocked, z: Clocked, ns: int)
    requires ClockInv(w) && ClockInv(z) && z.bucket.maxTokens == w.bucket.maxTokens && ns == NsPerToken(w.bucket.maxTokens)
    requires Credit(z) - Credit(w) <= z.now - w.now
    ensures ns >= 1 && z.bucket.grants - w.bucket.grants <= 4 * w.bucket.maxTokens + (z.now - w.now) / ns
  {
    hide NsPerToken;
    var m := w.bucket.maxTokens;
    SaneMeansNoDivisionByZero(m);
    MulMonotone(0, z.bucket.tokens, ns);
    MulMonotone(0, m, ns);
    FourArithmetic(z.bucket.grants, w.bucket.grants, Credit(z) - z.bucket.grants * ns, w.bucket.tokens,
                   Credit(w) - w.bucket.grants * ns - w.bucket.tokens * ns, z.now - w.now, ns, m);
  }

  lemma FourArithmetic(g': int, g: int, rest': int, t: int, more: int, w: int, ns: int, m: int)
    requires ns >= 1 && rest' >= 0 && t <= m && more <= 3 * (m * ns)
    requires g' * ns + rest' - (g * ns + t * ns + more) <= w
    ensures g' - g <= 4 * m + w / ns
  {
    MulMonotone(t, m, ns);
    Distribute(g', -g - 4 * m, ns);
    Distribute(-g, -4 * m, ns);
    assert (-g) * ns == -(g * ns) && (-4 * m) * ns == -(4 * (m * ns));
    QuotientBound(g' - g - 4 * m, w, ns);
  }

  // ---------- The bound is attained ----------

  lemma {:induction false} HappensAppend(w: Clocked, xs: seq<Event>, ys: seq<Event>)
    requires Sane(w.bucket.maxTokens) && Happens(w, xs) && Happens(Then(w, xs), ys)
    ensures Happens(w, xs + ys) && Then(w, xs + ys) == Then(Then(w, xs), ys)
    decreases |xs|
  {
    hide Next, Can;
    if xs == [] {
      assert xs + ys == ys;
    } else {
      assert (xs + ys)[1..] == xs[1..] + ys;
      HappensAppend(Next(w, xs[0]), xs[1..], ys);
    }
  }

  lemma HappensOne(w: Clocked, e: Event)
    requires Sane(w.bucket.maxTokens) && Can(w, e)
    ensures Happens(w, [e]) && Then(w, [e]) == Next(w, e)
  {
    hide Next, Can;
    assert [e][1..] == [] && Happens(Next(w, e), []) && Then(Next(w, e), []) == Next(w, e);
  }

  function Lift(actions: seq<Action>): seq<Event> {
    if actions == [] then [] else [Do(actions[0])] + Lift(actions[1..])
  }

  lemma {:induction false} LiftHappens(w: Clocked, actions: seq<Action>)
    requires Sane(w.bucket.maxTokens) && Runs(w.bucket, actions) && forall i :: 0 <= i < |actions| ==> !actions[i].Tick?
    ensures Happens(w, Lift(actions)) && Then(w, Lift(actions)) == w.(bucket := After(w.bucket, actions))
    decreases |actions|
  {
    if actions != [] {
      LiftHappens(w.(bucket := Step(w.bucket, actions[0])), actions[1..]);
      assert Lift(actions)[1..] == Lift(actions[1..]);
    }
  }

  lemma {:induction false} DrainHasNoTicks(n: nat)
    ensures forall i :: 0 <= i < |Drain(n)| ==> !Drain(n)[i].Tick?
  {
    if n > 0 {
      DrainHasNoTicks(n - 1);
    }
  }

  /** The refiller about to load, a full bucket, and a full bucket's worth of time to add. */
  predicate Loaded(b: Bucket) {
    && Sane(b.maxTokens) && b.tokens == b.maxTokens && b.callers == map[]
    && b.refiller == Loading && b.elapsedNs == b.maxTokens * NsPerToken(b.maxTokens)
  }

  /** The whole bucket is granted, and refilled from the time at hand. */
  lemma DrainAndRefill(w: Clocked) returns (events: seq<Event>)
    requires Loaded(w.bucket)
    ensures Happens(w, events)
    ensures Then(w, events) == w.(bucket := w.bucket.(refiller := Waiting, elapsedNs := 0, grants := w.bucket.grants + w.bucket.maxTokens))
  {
    hide Happens, Then, Step, Runs, After, Drain, Lift;
    var b, m := w.bucket, w.bucket.maxTokens;
    DrainGrants(b, m);
    DrainHasNoTicks(m);
    LiftHappens(w, Drain(m));
    var c := w.(bucket := After(b, Drain(m)));
    RefillRuns(c.bucket);
    LiftHappens(c, [RefillLoad, RefillSwap]);
    HappensAppend(w, Lift(Drain(m)), Lift([RefillLoad, RefillSwap]));
    events := Lift(Drain(m)) + Lift([RefillLoad, RefillSwap]);
  }

  lemma RefillRuns(c: Bucket)
    requires Sane(c.maxTokens) && c.tokens == 0 && c.refiller == Loading && c.elapsedNs == c.maxTokens * NsPerToken(c.maxTokens)
    ensures Runs(c, [RefillLoad, RefillSwap])
    ensures After(c, [RefillLoad, RefillSwap]) == c.(tokens := c.maxTokens, elapsedNs := 0, refiller := Waiting)
  {
    var ns := NsPerToken(c.maxTokens);
    SaneMeansNoDivisionByZero(c.maxTokens);
    MulCancels(c.maxTokens, ns);
    IncrementFillsToTheBrim(0, c.maxTokens, c.maxTokens);
    RunsTwo(c, RefillLoad, RefillSwap);
    assert c.elapsedNs % ns == 0 by {
      assert c.elapsedNs == c.elapsedNs / ns * ns + c.elapsedNs % ns;
    }
  }

  /** A tick that was a second or more under way brings a full bucket's worth of time. */
  lemma LateTick(w: Clocked)
    requires Sane(w.bucket.maxTokens) && w.bucket.refiller == Waiting && w.bucket.elapsedNs == 0
    requires w.bucket.tokens == w.bucket.maxTokens && w.bucket.callers == map[]
    requires w.pending.Some? && w.pending.value - w.bucket.prevStamp >= SECOND
    ensures Can(w, Deliver) && Loaded(Next(w, Deliver).bucket)
    ensures var z := Next(w, Deliver);
      && z == w.(bucket := z.bucket, pending := None) && z.bucket.grants == w.bucket.grants
      && z.bucket.prevStamp == w.pending.value && z.bucket.maxTokens == w.bucket.maxTokens
  {
    SaneMeansNoDivisionByZero(w.bucket.maxTokens);
    MulMonotone(1, w.bucket.maxTokens, NsPerToken(w.bucket.maxTokens));
  }

  /** The refiller was held up after a tick: another one waits in the channel, and the next is due. */
  lemma HeldUp(maxTokens: int, startTime: int) returns (events: seq<Event>)
    requires Sane(maxTokens)
    ensures Happens(Begin(maxTokens, startTime), events)
    ensures var w := Then(Begin(maxTokens, startTime), events);
      && Loaded(w.bucket) && w.bucket.maxTokens == maxTokens && w.bucket.prevStamp == startTime + SECOND
      && w.pending == Some(startTime + 2 * SECOND) && w.now == startTime + 3 * SECOND
  {
    hide Happens, Then;
    var w0 := Begin(maxTokens, startTime);
    HappensOne(w0, Pass(SECOND));
    var w1 := Next(w0, Pass(SECOND));
    HappensOne(w1, Fire);
    HappensAppend(w0, [Pass(SECOND)], [Fire]);
    var w2 := Next(w1, Fire);
    LateTick(w2);
    HappensOne(w2, Deliver);
    HappensAppend(w0, [Pass(SECOND)] + [Fire], [Deliver]);
    var w3 := Next(w2, Deliver);
    HappensOne(w3, Pass(SECOND));
    HappensAppend(w0, [Pass(SECOND)] + [Fire] + [Deliver], [Pass(SECOND)]);
    var w4 := Next(w3, Pass(SECOND));
    HappensOne(w4, Fire);
    HappensAppend(w0, [Pass(SECOND)] + [Fire] + [Deliver] + [Pass(SECOND)], [Fire]);
    var w5 := Next(w4, Fire);
    HappensOne(w5, Pass(SECOND));
    HappensAppend(w0, [Pass(SECOND)] + [Fire] + [Deliver] + [Pass(SECOND)] + [Fire], [Pass(SECOND)]);
    events := [Pass(SECOND)] + [Fire] + [Deliver] + [Pass(SECOND)] + [Fire] + [Pass(SECOND)];
  }

  /** Four buckets are granted while the clock stands still. */
  lemma FourBuckets(w: Clocked) returns (events: seq<Event>)
    requires Loaded(w.bucket) && w.pending.Some?
    requires w.pending.value - w.bucket.prevStamp >= SECOND && w.now - w.pending.value >= SECOND
    ensures Happens(w, events) && Then(w, events).now == w.now
    ensures Then(w, events).bucket.grants == w.bucket.grants + 4 * w.bucket.maxTokens
  {
    hide Happens, Then, Next, Can, NsPerToken, Drain, Lift;
    var m := w.bucket.maxTokens;
    var e1 := DrainAndRefill(w);
    var w1 := Then(w, e1);
    LateTick(w1);
    HappensOne(w1, Deliver);
    HappensAppend(w, e1, [Deliver]);
    var w2 := Next(w1, Deliver);
    var e2 := DrainAndRefill(w2);
    HappensAppend(w, e1 + [Deliver], e2);
    var w3 := Then(w2, e2);
    FireFills(w3);
    HappensOne(w3, Fire);
    HappensAppend(w, e1 + [Deliver] + e2, [Fire]);
    var w4 := Next(w3, Fire);
    LateTick(w4);
    HappensOne(w4, Deliver);
    HappensAppend(w, e1 + [Deliver] + e2 + [Fire], [Deliver]);
    var w5 := Next(w4, Deliver);
    var e3 := DrainAndRefill(w5);
    HappensAppend(w, e1 + [Deliver] + e2 + [Fire] + [Deliver], e3);
    var w6 := Then(w5, e3);
    DrainGrants(w6.bucket, m);
    DrainHasNoTicks(m);
    LiftHappens(w6, Drain(m));
    HappensAppend(w, e1 + [Deliver] + e2 + [Fire] + [Deliver] + e3, Lift(Drain(m)));
    events := e1 + [Deliver] + e2 + [Fire] + [Deliver] + e3 + Lift(Drain(m));
  }

  lemma FireFills(w: Clocked)
    requires Sane(w.bucket.maxTokens) && w.pending.None?
    ensures Can(w, Fire) && Next(w, Fire) == w.(pending := Some(w.now))
  {
  }

  ghost predicate BurstWithin(start: Clocked, before: seq<Event>, window: seq<Event>) {
    && Sane(start.bucket.maxTokens) && Happens(start, before) && Happens(Then(start, before), window)
    && var w := Then(start, before);
       Then(w, window).now == w.now && Then(w, window).bucket.grants - w.bucket.grants == 4 * start.bucket.maxTokens
  }

  /** For every capacity some run grants four full buckets at one instant of the callers' clock. */
  lemma WallClockBoundIsAttained(maxTokens: int, startTime: int)
    requires Sane(maxTokens)
    ensures exists before, window :: BurstWithin(Begin(maxTokens, startTime), before, window)
  {
    hide Happens, Then, NsPerToken;
    var before := HeldUp(maxTokens, startTime);
    var window := FourBuckets(Then(Begin(maxTokens, startTime), before));
    assert BurstWithin(Begin(maxTokens, startTime), before, window);
  }
}
