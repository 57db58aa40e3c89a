/** Which GETs are verified: the per-thread, per-key sampling decision
    (common/verify/sampler.cpp). */
module Sampler {
  import opened Arithmetic

  /** The splitmix64 finaliser. */
  function Mix(x: bv64): bv64 {
    var a := x + 0x9e37_79b9_7f4a_7c15;
    var b := (a ^ (a >> 30)) * 0xbf58_476d_1ce4_e5b9;
    var c := (b ^ (b >> 27)) * 0x94d0_49bb_1331_11eb;
    c ^ (c >> 31)
  }

  /** Keys are numbered in 32 bits. */
  type Key = k: nat | k < 0x1_0000_0000

  function Keyed(seed: bv64, key: Key): nat {
    Mix(seed ^ (0x517c_c1b7_2722_0a95 * ((key + 1) as bv64))) as nat
  }

  /** How far apart neighbouring threads are placed. */
  function Stride(every: nat, threads: nat): nat {
    var t := if threads == 0 then 1 else threads;
    if every / t == 0 then 1 else every / t
  }

  /** The one residue a thread samples for a key whose hash is `keyed`. */
  function Phase(keyed: nat, every: nat, thread: nat, threads: nat): nat
    requires every > 0
  {
    (keyed % every + (thread * Stride(every, threads)) % every) % every
  }

  datatype Sampler = Sampler(seed: bv64, every: nat, thread: nat, threads: nat) {
    predicate ShouldSample(key: Key, occurrence: nat) {
      if every == 0 then false
      else if every == 1 then true
      else occurrence % every == Phase(Keyed(seed, key), every, thread, threads)
    }
  }

  // --- windows ---------------------------------------------------------------------------

  /** How many numbers in [lo, hi) are `phase` modulo `every`. */
  function Hits(every: nat, phase: nat, lo: nat, hi: nat): nat
    requires every > 0 && lo <= hi
    decreases hi - lo
  {
    if lo == hi then 0 else Hits(every, phase, lo, hi - 1) + (if (hi - 1) % every == phase then 1 else 0)
  }

  lemma {:induction false} HitsSplit(every: nat, phase: nat, lo: nat, mid: nat, hi: nat)
    requires every > 0 && lo <= mid <= hi
    ensures Hits(every, phase, lo, hi) == Hits(every, phase, lo, mid) + Hits(every, phase, mid, hi)
    decreases hi
  {
    if mid < hi { HitsSplit(every, phase, lo, mid, hi - 1); }
  }

  lemma {:induction false} HitsFromZero(every: nat, phase: nat, n: nat)
    requires every > 0 && phase < every && n <= every
    ensures Hits(every, phase, 0, n) == if phase < n then 1 else 0
  {
    if n > 0 {
      HitsFromZero(every, phase, n - 1);
      SmallResidue(n - 1, every);
    }
  }

  lemma SameResidue(x: nat, every: nat)
    requires every > 0
    ensures (x + every) % every == x % every && (x + every) / every == x / every + 1
  {
    var q := x / every;
    assert (q + 1) * every == q * every + every;
    Divides(x + every, q + 1, x % every, every);
  }

  lemma {:induction false} WindowHasOne(every: nat, phase: nat, lo: nat)
    requires every > 0 && phase < every
    ensures Hits(every, phase, lo, lo + every) == 1
  {
    if lo == 0 {
      HitsFromZero(every, phase, every);
    } else {
      var a := lo - 1;
      WindowHasOne(every, phase, a);
      HitsSplit(every, phase, a, lo, lo + every);
      HitsSplit(every, phase, a, a + every, lo + every);
      SameResidue(a, every);
      assert Hits(every, phase, a, lo) == if a % every == phase then 1 else 0;
      assert Hits(every, phase, a + every, lo + every) == if (a + every) % every == phase then 1 else 0;
    }
  }

  /** The sampled occurrences of a key among [lo, hi). */
  function Samples(s: Sampler, key: Key, lo: nat, hi: nat): nat
    requires lo <= hi
    decreases hi - lo
  {
    if lo == hi then 0 else Samples(s, key, lo, hi - 1) + (if s.ShouldSample(key, hi - 1) then 1 else 0)
  }

  lemma {:induction false} SamplesAreHits(s: Sampler, key: Key, lo: nat, hi: nat)
    requires s.every > 1 && lo <= hi
    ensures Samples(s, key, lo, hi) == Hits(s.every, Phase(Keyed(s.seed, key), s.every, s.thread, s.threads), lo, hi)
    decreases hi
  {
    if lo < hi { SamplesAreHits(s, key, lo, hi - 1); }
  }

  /** Nothing is sampled when disabled, everything at rate 1, and otherwise any
      `every` consecutive occurrences hold exactly one sample. */
  lemma {:induction false} ExactlyOnePerWindow(s: Sampler, key: Key, lo: nat)
    ensures s.every == 0 ==> !s.ShouldSample(key, lo)
    ensures s.every == 1 ==> s.ShouldSample(key, lo)
    ensures s.every > 0 ==> Samples(s, key, lo, lo + s.every) == 1
  {
    if s.every > 1 {
      var phase := Phase(Keyed(s.seed, key), s.every, s.thread, s.threads);
      SamplesAreHits(s, key, lo, lo + s.every);
      WindowHasOne(s.every, phase, lo);
    }
  }

  // --- threads ---------------------------------------------------------------------------------

  /** (a + b) mod n for two residues. */
  lemma AddResidues(a: nat, b: nat, n: nat)
    requires a < n && b < n
    ensures (a + b) % n == if a + b < n then a + b else a + b - n
  {
    if a + b >= n { SameResidue(a + b - n, n); }
  }

  lemma StrideFits(every: nat, threads: nat)
    requires 0 < threads <= every
    ensures Stride(every, threads) == every / threads > 0
    ensures threads * Stride(every, threads) <= every
  {}

  /** With no more threads than `every`, a thread's own offset needs no reduction. */
  lemma OffsetFits(every: nat, threads: nat, t: nat)
    requires t < threads <= every
    ensures t * Stride(every, threads) + Stride(every, threads) <= every
  {
    var k := Stride(every, threads);
    StrideFits(every, threads);
    TimesMonotone(k, t + 1, threads);
    assert (t + 1) * k == t * k + k;
  }

  /** How far to go up, around the circle of residues, from one phase to another. */
  function Ahead(from: nat, to: nat, every: nat): nat
    requires from < every && to < every
  {
    if from <= to then to - from else to + every - from
  }

  /** With no more threads than `every`, two threads' phases are at least the stride
      apart in both directions around the circle. */
  lemma PhasesSpread(keyed: nat, every: nat, threads: nat, t: nat, u: nat)
    requires t < u < threads <= every
    ensures var p, q := Phase(keyed, every, t, threads), Phase(keyed, every, u, threads);
            Ahead(p, q, every) >= Stride(every, threads) && Ahead(q, p, every) >= Stride(every, threads)
  {
    var k := Stride(every, threads);
    PhaseOfFew(keyed, every, threads, t);
    PhaseOfFew(keyed, every, threads, u);
    OffsetFits(every, threads, u);
    StrideFits(every, threads);
    OffsetsApart(t, u, k);
    Spread(keyed % every, t * k, u * k, k, every);
  }

  lemma OffsetsApart(t: nat, u: nat, k: nat)
    requires t < u
    ensures t * k + k <= u * k
  {
    TimesMonotone(k, t + 1, u);
    assert (t + 1) * k == t * k + k;
  }

  /** Adding two offsets to a base, modulo n, keeps them as far apart as they were. */
  lemma Spread(base: nat, a: nat, b: nat, k: nat, n: nat)
    requires base < n && a + k <= b && b + k <= n && k > 0
    ensures Ahead((base + a) % n, (base + b) % n, n) >= k && Ahead((base + b) % n, (base + a) % n, n) >= k
  {
    AddResidues(base, a, n);
    AddResidues(base, b, n);
  }

  lemma PhaseOfFew(keyed: nat, every: nat, threads: nat, t: nat)
    requires t < threads <= every
    ensures Phase(keyed, every, t, threads) == (keyed % every + t * Stride(every, threads)) % every
  {
    OffsetFits(every, threads, t);
    StrideFits(every, threads);
    SmallResidue(t * Stride(every, threads), every);
  }

  lemma SmallResidue(x: nat, n: nat)
    requires x < n
    ensures x % n == x
  {}

  /** All threads have phases of their own. */
  ghost predicate Dephased(keyed: nat, every: nat, threads: nat)
    requires every > 0
  {
    forall t, u :: 0 <= t < u < threads ==> Phase(keyed, every, t, threads) != Phase(keyed, every, u, threads)
  }

  lemma DephasedIffFewThreads(keyed: nat, every: nat, threads: nat)
    requires every > 0
    ensures Dephased(keyed, every, threads) <==> threads <= every
  {
    if threads <= every {
      forall t, u | 0 <= t < u < threads ensures Phase(keyed, every, t, threads) != Phase(keyed, every, u, threads) {
        PhasesSpread(keyed, every, threads, t, u);
        StrideFits(every, threads);
      }
    } else {
      SmallQuotient(every, threads);
      SameResidue(0, every);
      assert Phase(keyed, every, 0, threads) == Phase(keyed, every, every, threads);
    }
  }

  /** Both threads verify the same occurrence of a key, for some occurrence. */
  ghost predicate Together(seed: bv64, every: nat, threads: nat, key: Key, t: nat, u: nat) {
    exists o: nat :: Sampler(seed, every, t, threads).ShouldSample(key, o) && Sampler(seed, every, u, threads).ShouldSample(key, o)
  }

  lemma TogetherIffSamePhase(seed: bv64, every: nat, threads: nat, key: Key, t: nat, u: nat)
    requires every > 0
    ensures Together(seed, every, threads, key, t, u) <==>
            Phase(Keyed(seed, key), every, t, threads) == Phase(Keyed(seed, key), every, u, threads)
  {
    var p := Phase(Keyed(seed, key), every, t, threads);
    SmallResidue(p, every);
    assert Sampler(seed, every, t, threads).ShouldSample(key, p);
  }

  /** No two threads ever verify the same occurrence of a key exactly when there are
      no more threads than `every`. */
  lemma NeverTogetherIff(seed: bv64, every: nat, threads: nat, key: Key)
    requires every > 0
    ensures (forall t, u :: 0 <= t < u < threads ==> !Together(seed, every, threads, key, t, u)) <==> threads <= every
  {
    DephasedIffFewThreads(Keyed(seed, key), every, threads);
    forall t, u | 0 <= t < u < threads { TogetherIffSamePhase(seed, every, threads, key, t, u); }
  }

  lemma SmallQuotient(every: nat, threads: nat)
    requires every < threads
    ensures Stride(every, threads) == 1
  {}

  // --- balance ------------------------------------------------------------------------------------

  /** How many of the first `n` threads have phase `r`. */
  function Load(keyed: nat, every: nat, threads: nat, r: nat, n: nat): nat
    requires every > 0
  {
    if n == 0 then 0
    else Load(keyed, every, threads, r, n - 1) + (if Phase(keyed, every, n - 1, threads) == r then 1 else 0)
  }

  lemma {:induction false} LoadAtMostOne(keyed: nat, every: nat, threads: nat, r: nat, n: nat)
    requires n <= threads <= every && every > 0
    ensures Load(keyed, every, threads, r, n) <= 1
    ensures Load(keyed, every, threads, r, n) == 1 ==> exists t :: 0 <= t < n && Phase(keyed, every, t, threads) == r
  {
    if n > 0 {
      LoadAtMostOne(keyed, every, threads, r, n - 1);
      DephasedIffFewThreads(keyed, every, threads);
    }
  }

  /** With more threads than `every`, thread t sits on residue keyed + t. */
  lemma LoadIsHits(keyed: nat, every: nat, threads: nat, r: nat, n: nat)
    requires 0 < every < threads && r < every
    ensures Load(keyed, every, threads, r, n) == Hits(every, r, keyed % every, keyed % every + n)
  {
    if n > 0 {
      LoadIsHits(keyed, every, threads, r, n - 1);
      SmallQuotient(every, threads);
      ResidueOfSum(keyed % every, n - 1, every);
    }
  }

  lemma ResidueOfSum(a: nat, b: nat, n: nat)
    requires n > 0
    ensures (a + b % n) % n == (a + b) % n
  {
    var q, r := b / n, b % n;
    var q', r' := (a + r) / n, (a + r) % n;
    assert b == q * n + r && a + r == q' * n + r';
    assert (q + q') * n == q * n + q' * n;
    Divides(a + b, q + q', r', n);
  }

  /** In q full windows and a rest, every residue is hit q or q + 1 times. */
  lemma {:induction false} HitsAreEven(every: nat, r: nat, lo: nat, q: nat, rest: nat)
    requires r < every && rest < every
    ensures q <= Hits(every, r, lo, lo + Windows(every, q) + rest) <= q + 1
    decreases q
  {
    WindowHasOne(every, r, lo);
    if q == 0 {
      HitsSplit(every, r, lo, lo + rest, lo + every);
    } else {
      HitsAreEven(every, r, lo + every, q - 1, rest);
      HitsSplit(every, r, lo, lo + every, lo + Windows(every, q) + rest);
    }
  }

  /** q windows, end to end. */
  function Windows(every: nat, q: nat): nat { if q == 0 then 0 else every + Windows(every, q - 1) }

  lemma {:induction false} WindowsMultiply(every: nat, q: nat)
    ensures Windows(every, q) == q * every
  {
    if q > 0 {
      WindowsMultiply(every, q - 1);
      assert q * every == (q - 1) * every + every;
    }
  }

  lemma Divided(n: nat, every: nat) returns (q: nat, rest: nat)
    requires every > 0
    ensures n == q * every + rest && rest < every
  {
    q, rest := n / every, n % every;
  }

  lemma LoadOfMany(keyed: nat, every: nat, threads: nat, r: nat, q: nat, rest: nat)
    requires r < every < threads && rest < every && threads == q * every + rest
    ensures q <= Load(keyed, every, threads, r, threads) <= q + 1
  {
    LoadIsHits(keyed, every, threads, r, threads);
    HitsAreEven(every, r, keyed % every, q, rest);
    WindowsMultiply(every, q);
  }

  /** However many threads there are, no residue carries two threads more than another. */
  lemma LoadsAreBalanced(keyed: nat, every: nat, threads: nat, r: nat, q: nat)
    requires r < every && q < every
    ensures Load(keyed, every, threads, r, threads) <= Load(keyed, every, threads, q, threads) + 1
  {
    if threads <= every {
      LoadAtMostOne(keyed, every, threads, r, threads);
    } else {
      var d, rest := Divided(threads, every);
      LoadOfMany(keyed, every, threads, r, d, rest);
      LoadOfMany(keyed, every, threads, q, d, rest);
    }
  }

  // --- round robin ---------------------------------------------------------------------------------

  /** GET number i of a thread goes to object i % objects; it is that object's
      occurrence i / objects. How many of the GETs [lo, hi) verify object `k`. */
  function Verified(s: Sampler, objects: nat, k: Key, lo: nat, hi: nat): nat
    requires objects > 0 && lo <= hi
    decreases hi - lo
  {
    if lo == hi then 0
    else
      var i := hi - 1;
      Verified(s, objects, k, lo, i) + (if i % objects == k && s.ShouldSample(k, i / objects) then 1 else 0)
  }

  /** How often object k has been requested before GET number i. */
  function Requested(objects: nat, k: nat, i: nat): nat
    requires k < objects
  {
    (i + objects - 1 - k) / objects
  }

  lemma RequestedStep(objects: nat, k: nat, i: nat)
    requires k < objects
    ensures i % objects == k ==> Requested(objects, k, i) == i / objects && Requested(objects, k, i + 1) == i / objects + 1
    ensures i % objects != k ==> Requested(objects, k, i + 1) == Requested(objects, k, i)
  {
    var q, r := i / objects, i % objects;
    assert i == q * objects + r;
    Quotient(q, r + objects - 1 - k, objects);
    Quotient(q, r + objects - k, objects);
  }

  /** Division of q * n + x, for x below 2n. */
  lemma Quotient(q: nat, x: nat, n: nat)
    requires x < 2 * n
    ensures (q * n + x) / n == if x < n then q else q + 1
  {
    if x >= n {
      assert (q + 1) * n == q * n + n;
      Divides(q * n + x, q + 1, x - n, n);
    } else {
      Divides(q * n + x, q, x, n);
    }
  }

  lemma {:induction false} VerifiedAreSamples(s: Sampler, objects: nat, k: Key, lo: nat, hi: nat)
    requires k < objects && lo <= hi
    ensures Requested(objects, k, lo) <= Requested(objects, k, hi)
    ensures Verified(s, objects, k, lo, hi) ==
            Samples(s, k, Requested(objects, k, lo), Requested(objects, k, hi))
    decreases hi
  {
    if lo < hi {
      VerifiedAreSamples(s, objects, k, lo, hi - 1);
      RequestedStep(objects, k, hi - 1);
    }
  }

  /** Round robin over any number of objects starves none: every window of
      every * objects GETs verifies each object exactly once. */
  lemma RoundRobinStarvesNone(s: Sampler, objects: nat, k: Key, lo: nat)
    requires k < objects && s.every > 0
    ensures Verified(s, objects, k, lo, lo + s.every * objects) == 1
  {
    var hi := lo + s.every * objects;
    VerifiedAreSamples(s, objects, k, lo, hi);
    QuotientShifts(lo + objects - 1 - k, s.every, objects);
    ExactlyOnePerWindow(s, k, Requested(objects, k, lo));
  }
}
