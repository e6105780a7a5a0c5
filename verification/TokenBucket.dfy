/**
 The lock-free token bucket of internal/appsec/limiter.go: one refilling goroutine and any
 number of callers of Allow, each load and each compare-and-swap of the counter a step.
 */
module TokenBucket {
  const SECOND: int := 1_000_000_000

  type ThreadId = nat

  /** Where the refilling goroutine is: waiting for a tick, about to load, or holding a loaded value. */
  datatype Refiller = Waiting | Loading | Loaded(tokens: int)

  datatype Bucket = Bucket(
    tokens: int,
    maxTokens: int,
    elapsedNs: int,
    prevStamp: int,
    refiller: Refiller,
    callers: map<ThreadId, int>, // value loaded by each caller inside Allow
    grants: nat)

  datatype Action =
    | Tick(stamp: int)
    | RefillLoad
    | RefillSwap
    | AllowLoad(caller: ThreadId)
    | AllowSwap(caller: ThreadId)

  /** The capacities of a working limiter: positive, and with a time per token of at least a nanosecond. */
  predicate Sane(maxTokens: int) { 1 <= maxTokens <= SECOND }

  /** Go's division truncates toward zero. */
  function NsPerToken(maxTokens: int): int
    requires maxTokens != 0
  {
    if maxTokens > 0 then SECOND / maxTokens else -(SECOND / -maxTokens)
  }

  /** updateBucket divides by the capacity and by the time per token: one of them is zero exactly for these capacities. */
  lemma DividesByZeroExactly(maxTokens: int)
    ensures maxTokens == 0 || NsPerToken(maxTokens) == 0 <==> maxTokens == 0 || maxTokens < -SECOND || maxTokens > SECOND
  {
    if maxTokens != 0 {
      var m := if maxTokens > 0 then maxTokens else -maxTokens;
      var q := SECOND / m;
      assert m * q <= SECOND < m * q + m;
    }
  }

  lemma SaneMeansNoDivisionByZero(maxTokens: int)
    requires Sane(maxTokens)
    ensures NsPerToken(maxTokens) >= 1 && maxTokens * NsPerToken(maxTokens) <= SECOND
  {
    var q := SECOND / maxTokens;
    assert maxTokens * q <= SECOND < maxTokens * q + maxTokens;
  }

  /** How many of `due` tokens the refiller adds to a bucket it found at `tokens`. */
  function Increment(tokens: int, due: int, maxTokens: int): int
    requires maxTokens > 0
  {
    if tokens + due > maxTokens then due - (tokens + due) % maxTokens else due
  }

  predicate Enabled(b: Bucket, a: Action) {
    match a
    case Tick(stamp) => b.refiller == Waiting && stamp >= b.prevStamp
    case RefillLoad => b.refiller == Loading
    case RefillSwap => b.refiller.Loaded?
    case AllowLoad(c) => c !in b.callers
    case AllowSwap(c) => c in b.callers
  }

  function Min(x: int, y: int): int { if x <= y then x else y }

  function Step(b: Bucket, a: Action): Bucket
    requires Sane(b.maxTokens) && Enabled(b, a)
  {
    SaneMeansNoDivisionByZero(b.maxTokens);
    var ns := NsPerToken(b.maxTokens);
    match a
    case Tick(stamp) =>
      var elapsed := Min(b.elapsedNs + (stamp - b.prevStamp), b.maxTokens * ns);
      b.(elapsedNs := elapsed, prevStamp := stamp, refiller := if elapsed >= ns then Loading else Waiting)
    case RefillLoad =>
      b.(refiller := if b.tokens == b.maxTokens then Waiting else Loaded(b.tokens))
    case RefillSwap =>
      var seen := b.refiller.tokens;
      if b.tokens == seen
      then b.(tokens := seen + Increment(seen, b.elapsedNs / ns, b.maxTokens),
              elapsedNs := b.elapsedNs % ns, refiller := Waiting)
      else b.(refiller := Loading)
    case AllowLoad(c) =>
      if b.tokens == 0 then b // Allow returns false
      else b.(callers := b.callers[c := b.tokens])
    case AllowSwap(c) =>
      var rest := b.(callers := b.callers - {c});
      if b.tokens == b.callers[c]
      then rest.(tokens := b.tokens - 1, grants := b.grants + 1) // Allow returns true
      else rest // and the caller loops
  }

  predicate Runs(b: Bucket, actions: seq<Action>)
    requires Sane(b.maxTokens)
    decreases |actions|
  {
    actions == [] || (Enabled(b, actions[0]) && Runs(Step(b, actions[0]), actions[1..]))
  }

  function After(b: Bucket, actions: seq<Action>): (z: Bucket)
    requires Sane(b.maxTokens) && Runs(b, actions)
    ensures z.maxTokens == b.maxTokens
    decreases |actions|
  {
    if actions == [] then b else After(Step(b, actions[0]), actions[1..])
  }

  function New(tokens: int, maxTokens: int, startTime: int): Bucket {
    Bucket(tokens, maxTokens, 0, startTime, Waiting, map[], 0)
  }

  predicate Inv(b: Bucket) {
    && Sane(b.maxTokens)
    && 0 <= b.tokens <= b.maxTokens
    && 0 <= b.elapsedNs <= b.maxTokens * NsPerToken(b.maxTokens)
    && (b.refiller.Loaded? ==> 0 <= b.refiller.tokens < b.maxTokens)
    && (b.refiller != Waiting ==> b.elapsedNs >= NsPerToken(b.maxTokens))
    && (forall c :: c in b.callers ==> 1 <= b.callers[c])
  }

  /** Nanoseconds' worth of tokens: granted, in the bucket, and accumulated towards the next refill. */
  function Potential(b: Bucket): int
    requires b.maxTokens > 0
  {
    b.grants * NsPerToken(b.maxTokens) + b.tokens * NsPerToken(b.maxTokens) + b.elapsedNs
  }

  /** The modulo in updateBucket fills the bucket exactly to the brim. */
  lemma IncrementFillsToTheBrim(tokens: int, due: int, maxTokens: int)
    requires 0 <= tokens < maxTokens && 0 <= due <= maxTokens
    ensures tokens + Increment(tokens, due, maxTokens) == Min(tokens + due, maxTokens)
    ensures 0 <= Increment(tokens, due, maxTokens) <= due
  {
    if tokens + due > maxTokens {
      assert (tokens + due) % maxTokens == tokens + due - maxTokens;
    }
  }

  lemma DueIsBounded(elapsed: int, ns: int, maxTokens: int)
    requires ns >= 1 && 0 <= elapsed <= maxTokens * ns
    ensures 0 <= elapsed / ns <= maxTokens
    ensures elapsed / ns * ns + elapsed % ns == elapsed && 0 <= elapsed % ns <= elapsed
  {
    var q := elapsed / ns;
    assert q * ns + elapsed % ns == elapsed;
    Distribute(maxTokens, 1, ns);
    if q >= maxTokens + 1 {
      MulMonotone(maxTokens + 1, q, ns);
    }
  }

  lemma MulMonotone(x: int, y: int, k: int)
    requires x <= y && k >= 0
    ensures x * k <= y * k
  {}

  lemma Distribute(x: int, y: int, k: int)
    ensures (x + y) * k == x * k + y * k
  {}

  lemma StepKeepsInv(b: Bucket, a: Action)
    requires Inv(b) && Enabled(b, a)
    ensures Inv(Step(b, a))
  {
    SaneMeansNoDivisionByZero(b.maxTokens);
    var ns := NsPerToken(b.maxTokens);
    if a.RefillSwap? && b.tokens == b.refiller.tokens {
      DueIsBounded(b.elapsedNs, ns, b.maxTokens);
      IncrementFillsToTheBrim(b.tokens, b.elapsedNs / ns, b.maxTokens);
    }
  }

  lemma RefillSpends(tokens: int, elapsed: int, ns: int, maxTokens: int)
    requires 0 <= tokens < maxTokens && ns >= 1 && 0 <= elapsed <= maxTokens * ns
    ensures (tokens + Increment(tokens, elapsed / ns, maxTokens)) * ns + elapsed % ns <= tokens * ns + elapsed
  {
    DueIsBounded(elapsed, ns, maxTokens);
    var due := elapsed / ns;
    IncrementFillsToTheBrim(tokens, due, maxTokens);
    MulMonotone(tokens + Increment(tokens, due, maxTokens), tokens + due, ns);
    Distribute(tokens, due, ns);
  }

  /** No step creates more nanoseconds of tokens than the clock advanced by. */
  lemma StepSpendsTime(b: Bucket, a: Action)
    requires Inv(b) && Enabled(b, a)
    ensures Potential(Step(b, a)) - Potential(b) <= Step(b, a).prevStamp - b.prevStamp
  {
    SaneMeansNoDivisionByZero(b.maxTokens);
    var ns, z := NsPerToken(b.maxTokens), Step(b, a);
    if a.RefillSwap? && b.tokens == b.refiller.tokens {
      RefillSpends(b.tokens, b.elapsedNs, ns, b.maxTokens);
    } else if a.AllowSwap? && z.grants != b.grants {
      Distribute(b.grants, 1, ns);
      Distribute(b.tokens, -1, ns);
    }
  }

  /** The number of tokens stays within bounds, and the potential within the time elapsed, under every interleaving. */
  lemma {:induction false} PotentialBound(b: Bucket, actions: seq<Action>)
    requires Inv(b) && Runs(b, actions)
    ensures Inv(After(b, actions))
    ensures Potential(After(b, actions)) - Potential(b) <= After(b, actions).prevStamp - b.prevStamp
    decreases |actions|
  {
    if actions != [] {
      StepKeepsInv(b, actions[0]);
      StepSpendsTime(b, actions[0]);
      PotentialBound(Step(b, actions[0]), actions[1..]);
    }
  }

  /** From a new bucket: everything granted or still held was there initially or paid for by time. */
  lemma GrantsArePaidFor(tokens: int, maxTokens: int, startTime: int, actions: seq<Action>)
    requires Sane(maxTokens) && 0 <= tokens <= maxTokens && Runs(New(tokens, maxTokens, startTime), actions)
    ensures var z, ns := After(New(tokens, maxTokens, startTime), actions), NsPerToken(maxTokens);
      && 0 <= z.tokens <= maxTokens
      && z.grants * ns + z.tokens * ns + z.elapsedNs <= tokens * ns + (z.prevStamp - startTime)
  {
    SaneMeansNoDivisionByZero(maxTokens);
    var b := New(tokens, maxTokens, startTime);
    assert 0 <= maxTokens * NsPerToken(maxTokens);
    PotentialBound(b, actions);
    assert Potential(b) == tokens * NsPerToken(maxTokens);
  }

  /** In any window of the refiller's own clock, its tick stamps, at most two full buckets plus one token per nsPerToken of the window are granted. */
  lemma WindowBound(b: Bucket, actions: seq<Action>)
    requires Inv(b) && Runs(b, actions)
    ensures var z, ns := After(b, actions), NsPerToken(b.maxTokens);
      ns >= 1 && z.grants - b.grants <= 2 * b.maxTokens + (z.prevStamp - b.prevStamp) / ns
  {
    SaneMeansNoDivisionByZero(b.maxTokens);
    PotentialBound(b, actions);
    var z, ns := After(b, actions), NsPerToken(b.maxTokens);
    WindowArithmetic(z.grants, b.grants, z.tokens, b.tokens, z.elapsedNs, b.elapsedNs,
                     z.prevStamp - b.prevStamp, ns, b.maxTokens);
  }

  lemma WindowArithmetic(g': int, g: int, t': int, t: int, e': int, e: int, w: int, ns: int, m: int)
    requires ns >= 1 && t' >= 0 && t <= m && e' >= 0 && e <= m * ns
    requires g' * ns + t' * ns + e' - (g * ns + t * ns + e) <= w
    ensures g' - g <= 2 * m + w / ns
  {
    MulMonotone(0, t', ns);
    MulMonotone(t, m, ns);
    Distribute(g', -g - 2 * m, ns);
    Distribute(-g, -2 * m, ns);
    Distribute(m, m, ns);
    assert (-g) * ns == -(g * ns);
    assert (-2 * m) * ns == -(2 * m * ns);
    QuotientBound(g' - g - 2 * m, w, ns);
  }

  lemma QuotientBound(x: int, w: int, ns: int)
    requires ns >= 1 && x * ns <= w
    ensures x <= w / ns
  {
    var q := w / ns;
    assert w < q * ns + ns;
    Distribute(q, 1, ns);
    if x >= q + 1 {
      MulMonotone(q + 1, x, ns);
    }
  }

  // ---------- What is lost, exactly ----------

  /** A tick after which the carry is cut down, or a refill that does not all fit. */
  predicate Capped(b: Bucket, a: Action)
    requires b.maxTokens > 0 && NsPerToken(b.maxTokens) >= 1
  {
    match a
    case Tick(stamp) => b.elapsedNs + (stamp - b.prevStamp) > b.maxTokens * NsPerToken(b.maxTokens)
    case RefillSwap =>
      b.refiller.Loaded? && b.tokens == b.refiller.tokens && b.tokens + b.elapsedNs / NsPerToken(b.maxTokens) > b.maxTokens
    case _ => false
  }

  /** The nanoseconds that a capped step throws away. */
  function Lost(b: Bucket, a: Action): int
    requires b.maxTokens > 0 && NsPerToken(b.maxTokens) >= 1
  {
    var ns := NsPerToken(b.maxTokens);
    if !Capped(b, a) then 0
    else match a
      case Tick(stamp) => b.elapsedNs + (stamp - b.prevStamp) - b.maxTokens * ns
      case RefillSwap => (b.tokens + b.elapsedNs / ns - b.maxTokens) * ns
      case _ => 0
  }

  lemma RefillIsExact(tokens: int, elapsed: int, ns: int, maxTokens: int)
    requires 0 <= tokens < maxTokens && ns >= 1 && 0 <= elapsed <= maxTokens * ns
    ensures var due := elapsed / ns; var over := if tokens + due > maxTokens then tokens + due - maxTokens else 0;
      (tokens + Increment(tokens, due, maxTokens)) * ns + elapsed % ns == tokens * ns + elapsed - over * ns
  {
    DueIsBounded(elapsed, ns, maxTokens);
    var due := elapsed / ns;
    IncrementFillsToTheBrim(tokens, due, maxTokens);
    Distribute(tokens, due, ns);
    var over := if tokens + due > maxTokens then tokens + due - maxTokens else 0;
    Distribute(tokens + due, -over, ns);
    assert (-over) * ns == -(over * ns);
  }

  /** Every step changes the potential by the clock's advance less what a cap throws away. */
  lemma StepIsExact(b: Bucket, a: Action)
    requires Inv(b) && Enabled(b, a)
    ensures NsPerToken(b.maxTokens) >= 1
    ensures Potential(Step(b, a)) - Potential(b) == Step(b, a).prevStamp - b.prevStamp - Lost(b, a)
    ensures Lost(b, a) >= 0 && (Lost(b, a) > 0 <==> Capped(b, a))
  {
    SaneMeansNoDivisionByZero(b.maxTokens);
    hide NsPerToken;
    var ns, z := NsPerToken(b.maxTokens), Step(b, a);
    if a.RefillSwap? && b.tokens == b.refiller.tokens {
      RefillIsExact(b.tokens, b.elapsedNs, ns, b.maxTokens);
      if Capped(b, a) {
        MulMonotone(1, b.tokens + b.elapsedNs / ns - b.maxTokens, ns);
      }
    } else if a.AllowSwap? && z.grants != b.grants {
      Distribute(b.grants, 1, ns);
      Distribute(b.tokens, -1, ns);
    }
  }

  predicate AnyCapped(b: Bucket, actions: seq<Action>)
    requires Inv(b) && Runs(b, actions)
    decreases |actions|
  {
    actions != [] && (
      SaneMeansNoDivisionByZero(b.maxTokens); StepKeepsInv(b, actions[0]);
      Capped(b, actions[0]) || AnyCapped(Step(b, actions[0]), actions[1..]))
  }

  /**
   Nothing is lost but at the caps: over any run the potential grows by exactly the clock's advance if
   and only if no tick overflowed the carry and no refill overflowed the bucket.  In particular the
   remainder of every refill is carried over.
   */
  lemma {:induction false} PotentialIsExact(b: Bucket, actions: seq<Action>)
    requires Inv(b) && Runs(b, actions)
    ensures Potential(After(b, actions)) - Potential(b) == After(b, actions).prevStamp - b.prevStamp <==> !AnyCapped(b, actions)
    decreases |actions|
  {
    assert Sane(b.maxTokens);
    hide Inv, Step, Enabled, Potential;
    if actions != [] {
      StepKeepsInv(b, actions[0]);
      StepIsExact(b, actions[0]);
      PotentialIsExact(Step(b, actions[0]), actions[1..]);
      PotentialBound(Step(b, actions[0]), actions[1..]);
    }
  }

  /** One tick and its refill, uninterrupted: the same tokens and the same carry as TokenTicker.Refill leaves. */
  lemma RefillIsSteps(b: Bucket, stamp: int) returns (actions: seq<Action>)
    requires Inv(b) && b.refiller == Waiting && stamp >= b.prevStamp
    ensures Runs(b, actions) && NsPerToken(b.maxTokens) >= 1
    ensures var z, e, ns := After(b, actions), Elapsed(b.elapsedNs + (stamp - b.prevStamp), b.maxTokens), NsPerToken(b.maxTokens);
      && z.tokens == Min(b.tokens + e / ns, b.maxTokens)
      && z.elapsedNs == (if b.tokens == b.maxTokens then e else e % ns)
      && z.prevStamp == stamp && z.refiller == Waiting && z.callers == b.callers && z.grants == b.grants
  {
    SaneMeansNoDivisionByZero(b.maxTokens);
    hide NsPerToken;
    var ns, e := NsPerToken(b.maxTokens), Elapsed(b.elapsedNs + (stamp - b.prevStamp), b.maxTokens);
    ElapsedBounds(b.elapsedNs + (stamp - b.prevStamp), b.maxTokens);
    DueIsBounded(e, ns, b.maxTokens);
    var c := Step(b, Tick(stamp));
    assert c == b.(elapsedNs := e, prevStamp := stamp, refiller := if e >= ns then Loading else Waiting);
    RunsOne(b, Tick(stamp));
    if e < ns {
      actions := [Tick(stamp)];
    } else if b.tokens == b.maxTokens {
      RunsTwo(b, Tick(stamp), RefillLoad);
      actions := [Tick(stamp), RefillLoad];
    } else {
      RunsTwo(c, RefillLoad, RefillSwap);
      RunsAppend(b, [Tick(stamp)], [RefillLoad, RefillSwap]);
      IncrementFillsToTheBrim(b.tokens, e / ns, b.maxTokens);
      actions := [Tick(stamp)] + [RefillLoad, RefillSwap];
    }
  }

  lemma RunsOne(b: Bucket, a: Action)
    requires Sane(b.maxTokens) && Enabled(b, a)
    ensures Runs(b, [a]) && After(b, [a]) == Step(b, a)
  {
    assert [a][1..] == [] && Runs(Step(b, a), []) && After(Step(b, a), []) == Step(b, a);
  }

  // ---------- The window bound is attained ----------

  /** n uncontended calls of Allow. */
  function Drain(n: nat): seq<Action> {
    if n == 0 then [] else [AllowLoad(0), AllowSwap(0)] + Drain(n - 1)
  }

  lemma {:induction false} RunsAppend(b: Bucket, xs: seq<Action>, ys: seq<Action>)
    requires Sane(b.maxTokens) && Runs(b, xs) && Runs(After(b, xs), ys)
    ensures Runs(b, xs + ys) && After(b, xs + ys) == After(After(b, xs), ys)
    decreases |xs|
  {
    if xs == [] {
      assert xs + ys == ys;
    } else {
      assert (xs + ys)[1..] == xs[1..] + ys;
      RunsAppend(Step(b, xs[0]), xs[1..], ys);
    }
  }

  lemma RunsTwo(b: Bucket, x: Action, y: Action)
    requires Sane(b.maxTokens) && Enabled(b, x) && Enabled(Step(b, x), y)
    ensures Runs(b, [x, y]) && After(b, [x, y]) == Step(Step(b, x), y)
  {
    var z := Step(b, x);
    assert [x, y][1..] == [y] && [y][1..] == [];
    assert Runs(Step(z, y), []) && After(Step(z, y), []) == Step(z, y);
    assert Runs(z, [y]) && After(z, [y]) == Step(z, y);
  }

  lemma {:induction false} DrainGrants(b: Bucket, n: nat)
    requires Sane(b.maxTokens) && b.callers == map[] && n <= b.tokens
    ensures Runs(b, Drain(n)) && After(b, Drain(n)) == b.(tokens := b.tokens - n, grants := b.grants + n)
    decreases n
  {
    if n > 0 {
      RunsTwo(b, AllowLoad(0), AllowSwap(0));
      var z := After(b, [AllowLoad(0), AllowSwap(0)]);
      assert z.callers == map[];
      DrainGrants(z, n - 1);
      RunsAppend(b, [AllowLoad(0), AllowSwap(0)], Drain(n - 1));
    }
  }

  /** A second of idleness leaves a full bucket holding a second full bucket's worth of time. */
  lemma IdleSecond(maxTokens: int, startTime: int) returns (b: Bucket)
    requires Sane(maxTokens)
    ensures Inv(b) && b.maxTokens == maxTokens && b.prevStamp == startTime + SECOND && b.callers == map[]
    ensures b.tokens == maxTokens && b.elapsedNs == maxTokens * NsPerToken(maxTokens) && b.refiller == Waiting
    ensures Runs(New(maxTokens, maxTokens, startTime), [Tick(startTime + SECOND), RefillLoad])
    ensures b == After(New(maxTokens, maxTokens, startTime), [Tick(startTime + SECOND), RefillLoad])
  {
    SaneMeansNoDivisionByZero(maxTokens);
    var a := New(maxTokens, maxTokens, startTime);
    MulMonotone(1, maxTokens, NsPerToken(maxTokens));
    RunsTwo(a, Tick(startTime + SECOND), RefillLoad);
    b := After(a, [Tick(startTime + SECOND), RefillLoad]);
  }

  /** A tick that brings no new time still turns the carried-over time into a full bucket. */
  lemma RefillFromCarriedTime(c: Bucket) returns (actions: seq<Action>)
    requires Sane(c.maxTokens) && c.tokens == 0 && c.refiller == Waiting
    requires c.elapsedNs == c.maxTokens * NsPerToken(c.maxTokens)
    ensures Runs(c, actions)
    ensures After(c, actions) == c.(tokens := c.maxTokens, elapsedNs := After(c, actions).elapsedNs)
  {
    SaneMeansNoDivisionByZero(c.maxTokens);
    var ns := NsPerToken(c.maxTokens);
    MulMonotone(1, c.maxTokens, ns);
    var d := Step(c, Tick(c.prevStamp));
    assert d == c.(refiller := Loading);
    assert Runs(d, []) && After(d, []) == d;
    assert Runs(c, [Tick(c.prevStamp)]) && After(c, [Tick(c.prevStamp)]) == d;
    MulCancels(c.maxTokens, ns);
    IncrementFillsToTheBrim(0, c.maxTokens, c.maxTokens);
    RunsTwo(d, RefillLoad, RefillSwap);
    RunsAppend(c, [Tick(c.prevStamp)], [RefillLoad, RefillSwap]);
    actions := [Tick(c.prevStamp)] + [RefillLoad, RefillSwap];
  }

  /** After `setup`, `actions` grant two full buckets at one instant. */
  ghost predicate BurstAfter(start: Bucket, setup: seq<Action>, actions: seq<Action>) {
    && Sane(start.maxTokens) && Runs(start, setup) && Runs(After(start, setup), actions)
    && var b := After(start, setup);
       After(b, actions).prevStamp == b.prevStamp && After(b, actions).grants - b.grants == 2 * start.maxTokens
  }

  /**
   For every capacity there is a reachable state from which 2 * maxTokens calls are granted
   while the clock stands still: one bucket plus the elapsed time is not an upper bound.
   */
  lemma BurstOfTwoBuckets(maxTokens: int, startTime: int)
    requires Sane(maxTokens)
    ensures exists setup, actions :: BurstAfter(New(maxTokens, maxTokens, startTime), setup, actions)
  {
    hide Step, Runs, After, Drain;
    var b := IdleSecond(maxTokens, startTime);
    DrainGrants(b, maxTokens);
    var c := After(b, Drain(maxTokens));
    var refill := RefillFromCarriedTime(c);
    var f := After(c, refill);
    DrainGrants(f, maxTokens);
    RunsAppend(c, refill, Drain(maxTokens));
    RunsAppend(b, Drain(maxTokens), refill + Drain(maxTokens));
    assert BurstAfter(New(maxTokens, maxTokens, startTime), [Tick(startTime + SECOND), RefillLoad],
                      Drain(maxTokens) + (refill + Drain(maxTokens)));
  }

  lemma MulCancels(m: int, ns: int)
    requires ns >= 1
    ensures m * ns / ns == m
  {
    QuotientBound(m, m * ns, ns);
    var q := m * ns / ns;
    assert q * ns <= m * ns;
    Distribute(m, 1, ns);
    if q >= m + 1 {
      MulMonotone(m + 1, q, ns);
    }
  }

  // ---------- The object, among other goroutines ----------

  class TokenTicker {
    var tokens: int
    const maxTokens: int

    constructor (tokens: int, maxTokens: int)
      ensures this.tokens == tokens && this.maxTokens == maxTokens
    {
      this.tokens, this.maxTokens := tokens, maxTokens;
    }

    method CompareAndSwap(expected: int, desired: int) returns (swapped: bool)
      modifies this
      ensures swapped == (old(tokens) == expected)
      ensures tokens == if swapped then desired else old(tokens)
    {
      swapped := tokens == expected;
      if swapped {
        tokens := desired;
      }
    }

    /**
     `others` are the values that other goroutines store between this caller's loads and
     swaps.  However many they are, the call acts as one atomic step on the value it saw last.
     */
    method Allow(others: seq<int>) returns (granted: bool, seen: int)
      modifies this
      ensures seen in [old(tokens)] + others
      ensures granted == (seen != 0)
      ensures tokens == if granted then seen - 1 else seen
    {
      var pending := others;
      while true
        invariant tokens in [old(tokens)] + others
        invariant forall v :: v in pending ==> v in others
        decreases |pending|
      {
        seen := tokens;
        if seen == 0 {
          return false, seen;
        }
        if pending != [] {
          tokens, pending := pending[0], pending[1..];
        }
        var swapped := CompareAndSwap(seen, seen - 1);
        if swapped {
          return true, seen;
        }
      }
    }

    /** The spin loop of updateBucket, with `due` tokens to add and `others` as for Allow. */
    method AddDue(due: int, others: seq<int>) returns (seen: int)
      requires 0 <= due <= maxTokens && forall v :: v in [tokens] + others ==> 0 <= v <= maxTokens
      modifies this
      ensures seen in [old(tokens)] + others
      ensures tokens == Min(seen + due, maxTokens)
    {
      var pending := others;
      while true
        invariant tokens in [old(tokens)] + others
        invariant forall v :: v in pending ==> v in others
        decreases |pending|
      {
        seen := tokens;
        if seen == maxTokens {
          return;
        }
        IncrementFillsToTheBrim(seen, due, maxTokens);
        var inc := due;
        if seen + inc > maxTokens {
          inc := inc - (seen + inc) % maxTokens;
        }
        if pending != [] {
          tokens, pending := pending[0], pending[1..];
        }
        var swapped := CompareAndSwap(seen, seen + inc);
        if swapped {
          return;
        }
      }
    }

    /** One tick of updateBucket; returns the time carried over to the next one. */
    method Refill(elapsedNs: int, sinceLast: int, others: seq<int>) returns (rest: int, seen: int)
      requires Sane(maxTokens) && forall v :: v in [tokens] + others ==> 0 <= v <= maxTokens
      requires 0 <= elapsedNs <= maxTokens * NsPerToken(maxTokens) && 0 <= sinceLast
      modifies this
      ensures seen in [old(tokens)] + others
      ensures NsPerToken(maxTokens) >= 1
      ensures tokens == Min(seen + Elapsed(elapsedNs + sinceLast, maxTokens) / NsPerToken(maxTokens), maxTokens)
      ensures seen == maxTokens ==> rest == Elapsed(elapsedNs + sinceLast, maxTokens)
      ensures seen != maxTokens ==> rest == Elapsed(elapsedNs + sinceLast, maxTokens) % NsPerToken(maxTokens)
    {
      hide NsPerToken, Elapsed;
      SaneMeansNoDivisionByZero(maxTokens);
      var nsPerToken := NsPerToken(maxTokens);
      ElapsedBounds(elapsedNs + sinceLast, maxTokens);
      rest := elapsedNs + sinceLast;
      if rest > maxTokens * nsPerToken {
        rest := maxTokens * nsPerToken;
      }
      if rest >= nsPerToken {
        seen := AddDue(rest / nsPerToken, others);
        if seen != maxTokens {
          rest := rest % nsPerToken;
        }
      } else {
        seen := tokens;
      }
    }
  }

  /** The time taken into account: never more than a full bucket's worth. */
  function Elapsed(ns: int, maxTokens: int): int
    requires maxTokens != 0
  {
    Min(ns, maxTokens * NsPerToken(maxTokens))
  }

  lemma ElapsedBounds(elapsed: int, maxTokens: int)
    requires Sane(maxTokens) && elapsed >= 0
    ensures NsPerToken(maxTokens) >= 1
    ensures Elapsed(elapsed, maxTokens) ==
      if elapsed > maxTokens * NsPerToken(maxTokens) then maxTokens * NsPerToken(maxTokens) else elapsed
    ensures 0 <= Elapsed(elapsed, maxTokens) / NsPerToken(maxTokens) <= maxTokens
    ensures Elapsed(elapsed, maxTokens) < NsPerToken(maxTokens) ==>
      && Elapsed(elapsed, maxTokens) / NsPerToken(maxTokens) == 0
      && Elapsed(elapsed, maxTokens) % NsPerToken(maxTokens) == Elapsed(elapsed, maxTokens)
  {
    hide NsPerToken;
    SaneMeansNoDivisionByZero(maxTokens);
    var ns := NsPerToken(maxTokens);
    MulMonotone(0, maxTokens, ns);
    var e := Elapsed(elapsed, maxTokens);
    DueIsBounded(e, ns, maxTokens);
    if e < ns {
      SmallQuotient(e, ns);
    }
  }

  lemma SmallQuotient(e: int, ns: int)
    requires 0 <= e < ns
    ensures e / ns == 0 && e % ns == e
  {}
}
