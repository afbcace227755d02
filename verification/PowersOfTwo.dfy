/** Powers of two, as growing buffers take them. */
module PowersOfTwo {
  const WORD: nat := 0x1_0000_0000

  function Pow2(k: nat): (p: nat)
    ensures p >= 1
  {
    if k == 0 then 1 else 2 * Pow2(k - 1)
  }

  lemma {:induction false} Pow2Monotonic(a: nat, b: nat)
    requires a <= b
    ensures Pow2(a) <= Pow2(b)
    decreases b - a
  {
    if a < b {
      Pow2Monotonic(a, b - 1);
    }
  }

  ghost predicate IsPow2(p: nat) { exists k: nat :: p == Pow2(k) }

  lemma Pow2At31()
    ensures Pow2(31) == 0x8000_0000
  {
    assert Pow2(8) == 0x100;
    assert Pow2(16) == 0x1_0000;
    assert Pow2(24) == 0x100_0000;
  }

  /** A power of two above one is even. */
  lemma Halves(p: nat)
    requires IsPow2(p) && p > 1
    ensures 2 * (p / 2) == p
  {
    var k: nat :| p == Pow2(k);
    assert p == 2 * Pow2(k - 1);
  }

  lemma Doubled(p: nat)
    requires IsPow2(p)
    ensures IsPow2(2 * p)
  {
    var k: nat :| p == Pow2(k);
    assert 2 * p == Pow2(k + 1);
  }

  /** The least power of two that is not below `n`. */
  ghost predicate IsNextPow2(p: nat, n: nat) {
    IsPow2(p) && n <= p && forall q :: IsPow2(q) && n <= q ==> p <= q
  }

  /** It is the one in the range between a number and its double. */
  lemma NextBetween(p: nat, n: nat)
    requires IsPow2(p) && n <= p && (p == 1 || p < 2 * n)
    ensures IsNextPow2(p, n)
  {
    var k: nat :| p == Pow2(k);
    assert k > 0 ==> 2 * Pow2(k - 1) == p;
    forall q | IsPow2(q) && n <= q ensures p <= q {
      var j: nat :| q == Pow2(j);
      if j < k {
        Pow2Monotonic(j, k - 1);
      } else {
        Pow2Monotonic(k, j);
      }
    }
  }

  lemma NextUnique(p: nat, q: nat, n: nat)
    requires IsNextPow2(p, n) && IsNextPow2(q, n)
    ensures p == q
  {
  }

  function PowFrom(k: nat, n: nat): nat
    requires k > 0
    decreases n - k
  {
    if n <= k then k else PowFrom(2 * k, n)
  }

  lemma {:induction false} PowFromIs(k: nat, n: nat)
    requires IsPow2(k) && (k == 1 || k < 2 * n)
    ensures IsNextPow2(PowFrom(k, n), n)
    decreases n - k
  {
    if n <= k {
      NextBetween(k, n);
    } else {
      Doubled(k);
      PowFromIs(2 * k, n);
    }
  }

  function NextPow2(n: nat): (p: nat)
    ensures IsNextPow2(p, n)
  {
    assert IsPow2(1) by { assert 1 == Pow2(0); }
    PowFromIs(1, n);
    PowFrom(1, n)
  }

  /** It is below twice the number, and even when it is not one. */
  lemma NextBelow(n: nat)
    requires n > 1
    ensures NextPow2(n) < 2 * n && 2 * (NextPow2(n) / 2) == NextPow2(n)
  {
    var p := NextPow2(n);
    Halves(p);
    var k: nat :| p == Pow2(k);
    assert p == 2 * Pow2(k - 1);
    assert IsPow2(Pow2(k - 1));
  }

  /** Numbers up to 2^31 have theirs up to 2^31. */
  lemma NextSmall(n: nat)
    requires n <= 0x8000_0000
    ensures NextPow2(n) <= 0x8000_0000
  {
    Pow2At31();
    assert IsPow2(0x8000_0000);
  }

  /** `k <<= 1` on 32 bits. */
  function Shift(k: nat): (s: nat)
    ensures s < WORD
  {
    2 * k % WORD
  }

  /** `mangoh_bridge_json_getNextPowerOfTwo`. */
  method GetNextPowerOfTwo(n: nat) returns (k: nat)
    requires n <= 0x8000_0000
    ensures IsNextPow2(k, n) && k <= 0x8000_0000
  {
    k := 1;
    assert 1 == Pow2(0);
    while k < n
      invariant IsPow2(k) && (k == 1 || k < 2 * n) && k <= 0x8000_0000
      decreases n - k
    {
      Doubled(k);
      Below(k);
      k := Shift(k);
    }
    NextBetween(k, n);
  }

  /** There is no power of two between 2^30 and 2^31. */
  lemma Below(k: nat)
    requires IsPow2(k) && k < 0x8000_0000
    ensures 2 * k <= 0x8000_0000
  {
    Pow2At31();
    var e: nat :| k == Pow2(e);
    if e <= 30 {
      Pow2Monotonic(e, 30);
    } else {
      Pow2Monotonic(31, e);
    }
  }

  /** What the loop's variable is after so many rounds. */
  function Shifted(rounds: nat): nat { if rounds == 0 then 1 else Shift(Shifted(rounds - 1)) }

  lemma {:induction false} ShiftedIs(rounds: nat)
    ensures Shifted(rounds) == if rounds < 32 then Pow2(rounds) else 0
    decreases rounds
  {
    hide Pow2, Shifted;
    ShiftedStep(rounds);
    Pow2At31();
    if rounds > 0 {
      ShiftedIs(rounds - 1);
      if rounds < 32 {
        Pow2Monotonic(rounds, 31);
      }
    }
  }

  lemma ShiftedStep(rounds: nat)
    ensures rounds > 0 ==> Shifted(rounds) == Shift(Shifted(rounds - 1)) && Pow2(rounds) == 2 * Pow2(rounds - 1)
    ensures rounds == 0 ==> Shifted(rounds) == Pow2(rounds) == 1
  {
  }

  /** Exactly for the arguments above 2^31, the loop never ends: its variable stays below the argument. */
  lemma NeverEnds(n: nat)
    ensures (forall rounds: nat :: Shifted(rounds) < n) <==> n > 0x8000_0000
  {
    Pow2At31();
    ShiftedIs(31);
    if n > 0x8000_0000 {
      forall rounds: nat ensures Shifted(rounds) < n {
        ShiftedIs(rounds);
        if rounds < 32 {
          Pow2Monotonic(rounds, 31);
        }
      }
    }
  }
}
