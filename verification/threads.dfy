/** The thread budget of one transcription: the caller's request, clamped by
    16 and by the largest power of two not above the host's reported hardware
    concurrency. */
module ThreadBudget {
  import opened Wrappers

  /** The fixed ceiling on decoder threads. */
  const MaxThreads := 16

  /** Inputs below this bound keep every doubling of the search loop below
      2^31, inside a 32-bit `int`. */
  const DoublingBound := 0x4000_0000

  predicate IsPowerOfTwo(p: int)
    decreases p
  {
    p == 1 || (p >= 2 && p % 2 == 0 && IsPowerOfTwo(p / 2))
  }

  /** Reference definition: the largest power of two not above `n`, and 0
      when there is none. */
  function FloorPow2(n: int): (p: int)
    ensures n <= 0 ==> p == 0
    ensures n >= 1 ==> IsPowerOfTwo(p) && p <= n < 2 * p
    decreases n
  {
    if n <= 0 then 0
    else if n == 1 then 1
    else
      var q := FloorPow2(n / 2);
      assert (2 * q) / 2 == q;
      2 * q
  }

  /** Distinct powers of two are at least a factor two apart. */
  lemma {:induction false} PowerOfTwoGap(p: int, q: int)
    requires IsPowerOfTwo(p) && IsPowerOfTwo(q) && p < q
    ensures 2 * p <= q
    decreases q
  {
    if p >= 2 {
      PowerOfTwoGap(p / 2, q / 2);
    }
  }

  /** At most one power of two `p` satisfies `p <= n < 2p`. */
  lemma FloorPow2Unique(n: int, p: int)
    requires IsPowerOfTwo(p) && p <= n < 2 * p
    ensures p == FloorPow2(n)
  {
    var q := FloorPow2(n);
    if p < q { PowerOfTwoGap(p, q); }
    if q < p { PowerOfTwoGap(q, p); }
  }

  lemma {:induction false} FloorPow2Monotone(a: int, b: int)
    requires a <= b
    ensures FloorPow2(a) <= FloorPow2(b)
  {
    if a >= 1 {
      var p := FloorPow2(a);
      var q := FloorPow2(b);
      if q < p {
        PowerOfTwoGap(q, p);
      }
    }
  }

  /** `mpow2`: double from 1 until past `n`, then halve once. */
  method LargestPowerOfTwoAtMost(n: int) returns (r: int)
    requires n < DoublingBound
    ensures r == FloorPow2(n)
  {
    var p := 1;
    while p <= n
      invariant IsPowerOfTwo(p)
      invariant p == 1 || p / 2 <= n
      invariant p < 2 * DoublingBound
      decreases n - p
    {
      p := p * 2;
    }
    r := p / 2;
    if n >= 1 {
      assert p >= 2;
      FloorPow2Unique(n, r);
    }
  }

  /** The thread count handed to the engine. */
  function ThreadCount(requested: int, hardware: int): (n: int)
    ensures n <= requested && n <= MaxThreads
    ensures hardware >= 1 ==> n <= hardware
    ensures hardware <= 0 ==> n == Min(requested, 0)
    ensures n == requested || IsPowerOfTwo(n) || (hardware <= 0 && n == 0)
    ensures requested <= MaxThreads && requested <= FloorPow2(hardware) ==> n == requested
    ensures n <= FloorPow2(hardware)
    ensures n == requested || n == MaxThreads || n == FloorPow2(hardware)
  {
    Min(requested, Min(MaxThreads, FloorPow2(hardware)))
  }

  /** More hardware never yields fewer threads. */
  lemma ThreadCountMonotone(requested: int, h1: int, h2: int)
    requires h1 <= h2
    ensures ThreadCount(requested, h1) <= ThreadCount(requested, h2)
  {
    FloorPow2Monotone(h1, h2);
  }

  lemma ThreadCountExamples()
    ensures ThreadCount(32, 12) == 8
    ensures ThreadCount(2, 64) == 2
  {
    FloorPow2Unique(12, 8);
    FloorPow2Unique(64, 64);
  }
}
