/**
 * Sampling by rate (ddtrace/tracer/sampler.go): an ID is kept when its product with a constant,
 * modulo 2^64, falls below the rate's share of 2^64.
 */
module KnuthSampler {
  import opened Common

  const KNUTH_FACTOR: nat := 1111111111111111111

  /** The inverse of the factor modulo 2^64. */
  const INVERSE: nat := 3396998997810348023

  type TraceId = n: nat | n < U64

  function Hash(n: TraceId): TraceId { n * KNUTH_FACTOR % U64 }

  /** uint64(rate * math.MaxUint64): the constant rounds to 2^64 as a float64, and scaling by it is exact. */
  function Threshold(rate: real): (t: int)
    requires 0.0 <= rate < 1.0
    ensures 0 <= t < U64
    ensures t as real <= rate * U64 as real < (t + 1) as real
  {
    ScaledBelow(rate);
    (rate * U64 as real).Floor
  }

  lemma ScaledBelow(rate: real)
    requires 0.0 <= rate < 1.0
    ensures 0.0 <= rate * U64 as real < U64 as real
  {
  }

  predicate SampledByRate(n: TraceId, rate: real)
    requires rate >= 0.0
  {
    if rate < 1.0 then Hash(n) < Threshold(rate) else true
  }

  ghost function Sampled(rate: real): set<TraceId>
    requires rate >= 0.0
  {
    set n: TraceId | SampledByRate(n, rate)
  }

  // ---------------------------------------------------------------------
  // The hash is a permutation

  lemma ModUnique(x: int, q: int, r: int)
    requires 0 <= r < U64 && x == q * U64 + r
    ensures x % U64 == r
  {
  }

  lemma MulMod(a: int, b: int)
    ensures (a % U64) * b % U64 == a * b % U64
  {
    var q, r := a / U64, a % U64;
    var s, t := r * b / U64, r * b % U64;
    assert a * b == (q * b + s) * U64 + t by {
      assert a == q * U64 + r;
      Distribute(q, U64, r, b);
    }
    ModUnique(a * b, q * b + s, t);
  }

  lemma Distribute(q: int, m: int, r: int, b: int)
    ensures (q * m + r) * b == q * b * m + r * b
  {
    assert q * m * b == q * b * m;
  }

  function Unhash(h: TraceId): TraceId { h * INVERSE % U64 }

  lemma InverseOfFactor()
    ensures INVERSE * KNUTH_FACTOR == 204612982964281147 * U64 + 1
  {
  }

  lemma Cancel(n: TraceId)
    ensures n * (INVERSE * KNUTH_FACTOR) % U64 == n
  {
    InverseOfFactor();
    var q := 204612982964281147;
    assert n * (q * U64 + 1) == n * q * U64 + n;
    ModUnique(n * (q * U64 + 1), n * q, n);
  }

  lemma HashUndone(n: TraceId)
    ensures Unhash(Hash(n)) == n && Hash(Unhash(n)) == n
  {
    MulMod(n * KNUTH_FACTOR, INVERSE);
    MulMod(n * INVERSE, KNUTH_FACTOR);
    assert n * KNUTH_FACTOR * INVERSE == n * (INVERSE * KNUTH_FACTOR);
    assert n * INVERSE * KNUTH_FACTOR == n * (INVERSE * KNUTH_FACTOR);
    Cancel(n);
  }

  // ---------------------------------------------------------------------
  // How many IDs are sampled

  predicate Under(h: TraceId, t: nat) { h < t }

  ghost function Below(t: nat): set<TraceId> { set h: TraceId | Under(h, t) }

  lemma {:induction false} BelowSize(t: nat)
    requires t <= U64
    ensures |Below(t)| == t
  {
    if t == 0 {
      assert Below(0) == {};
    } else {
      BelowSize(t - 1);
      assert Below(t) == Below(t - 1) + {t - 1};
    }
  }

  lemma {:induction false} ImageSize(s: set<TraceId>)
    ensures |set h | h in s :: Unhash(h)| == |s|
  {
    hide Unhash, Hash;
    var image := set h | h in s :: Unhash(h);
    if s != {} {
      var x :| x in s;
      var rest := set h | h in s - {x} :: Unhash(h);
      ImageSize(s - {x});
      forall h | h in s - {x} ensures Unhash(h) != Unhash(x) {
        HashUndone(h);
        HashUndone(x);
      }
      assert image == rest + {Unhash(x)};
    }
  }

  /** A rate below one keeps exactly its share of the 2^64 IDs, rounded down; a rate of one or more keeps all. */
  lemma SampledShare(rate: real)
    requires rate >= 0.0
    ensures |Sampled(rate)| == if rate < 1.0 then (rate * U64 as real).Floor else U64
  {
    hide Hash, Unhash, Threshold;
    var t := if rate < 1.0 then Threshold(rate) else U64;
    forall n: TraceId ensures n in Sampled(rate) <==> n in (set h | h in Below(t) :: Unhash(h)) {
      HashUndone(n);
      if n in Sampled(rate) {
        assert Hash(n) in Below(t);
      }
      if n in (set h | h in Below(t) :: Unhash(h)) {
        var h :| h in Below(t) && n == Unhash(h);
        HashUndone(h);
      }
    }
    assert Sampled(rate) == set h | h in Below(t) :: Unhash(h);
    ImageSize(Below(t));
    BelowSize(t);
    if rate < 1.0 {
      ThresholdIs(rate);
    }
  }

  lemma ThresholdIs(rate: real)
    requires 0.0 <= rate < 1.0
    ensures Threshold(rate) == (rate * U64 as real).Floor
  {
  }

  /** Raising the rate keeps every ID that was kept. */
  lemma RaisingKeeps(low: real, high: real)
    requires 0.0 <= low <= high
    ensures Sampled(low) <= Sampled(high)
    ensures high < 1.0 ==> |Sampled(high) - Sampled(low)| == (high * U64 as real).Floor - (low * U64 as real).Floor
  {
    hide Hash;
    if high < 1.0 {
      assert low * U64 as real <= high * U64 as real;
    }
    assert Sampled(low) <= Sampled(high);
    SampledShare(low);
    SampledShare(high);
    assert Sampled(high) == (Sampled(high) - Sampled(low)) + Sampled(low);
  }
}
